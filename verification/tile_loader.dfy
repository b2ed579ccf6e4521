/** Tile loading and one run of the location widget: cache-then-network tile
    loading, the zoom-level retry ladder, the world-map preload and last-resort
    fallback, imagery-version detection and location resolution.

    The network, the operating system's location service, the Maps API page and
    the random server draw are inputs; a request is identified by the server,
    version and tile coordinates its URL carries. */
module TileLoader {
  import opened Wrappers
  import opened Strings
  import opened Numerals
  import opened TileGrid
  import opened TileCache

  /** What the widget throws without a location. */
  const NoLocationMessage := "could not retrieve location, neither from the operating system nor from the cache"

  /** What the widget throws when the world map cannot be downloaded. */
  const WorldMapMessage := "couldn't download low-resolution world map (it's indended to be shown when offline)"

  /** Imagery version current when the widget was written. */
  const FallbackVersion: int := 995
  /** Days a cached tile is kept after it was last used. */
  const CacheDuration: nat := 30
  /** The ladder gives up once the zoom level is no longer above this. */
  const LowestTileZoom: int := 8

  datatype Fetch = Unreachable | Response(status: int, body: Bytes)

  datatype TileRequest = TileRequest(server: int, version: int, tile: TileCoords)

  type Network = TileRequest -> Fetch

  datatype Loader = Loader(server: int, version: int)

  /** One of the four tile servers, `floor(draw * 4)` for a uniform draw in [0, 1). */
  function NewLoader(draw: real): (l: Loader)
    requires 0.0 <= draw < 1.0
    ensures 0 <= l.server < 4
    ensures l.version == FallbackVersion
  {
    Loader((draw * 4.0).Floor, FallbackVersion)
  }

  function RequestFor(l: Loader, t: TileCoords): TileRequest {
    TileRequest(l.server, l.version, t)
  }

  /** Success and "not found" both count as a delivered tile. */
  predicate Accepted(f: Fetch) {
    f.Response? && (f.status == 200 || f.status == 404)
  }

  const RequestFailed := "request failed"
  const UnexpectedStatus := "unexpected status code "

  /** Fetching a tile and caching its raw data; any status but 200 and 404 is an error. */
  function Download(l: Loader, cache: Cache, net: Network, t: TileCoords, now: int): (r: Result<(Bytes, Cache)>)
    ensures r.Ok? <==> Accepted(net(RequestFor(l, t)))
    ensures r.Ok? ==> r.value.0 == net(RequestFor(l, t)).body
    ensures r.Ok? ==> ReadTile(r.value.1, t, l.version, now).0 == Some(r.value.0)
  {
    match net(RequestFor(l, t))
    case Unreachable => Err(RequestFailed)
    case Response(status, body) =>
      if status != 200 && status != 404 then Err(UnexpectedStatus + IntToString(status))
      else
        ReadAfterWriteTile(cache, t, l.version, body, now, t, l.version, now);
        Ok((body, WriteTile(cache, t, l.version, body, now)))
  }

  /** A value that may be missing, and the cache as left behind. */
  datatype Loaded<T> = Loaded(value: Option<T>, cache: Cache)

  /** A tile from the cache, or on a miss from the network. */
  function Load(l: Loader, cache: Cache, net: Network, t: TileCoords, now: int): Loaded<Bytes> {
    var (hit, touched) := ReadTile(cache, t, l.version, now);
    if hit.Some? then Loaded(hit, touched)
    else
      match Download(l, touched, net, t, now)
      case Ok((data, written)) => Loaded(Some(data), written)
      case Err(_) => Loaded(None, touched)
  }

  /** Loads the tiles in order, stopping at the first that fails. */
  function LoadAll(l: Loader, cache: Cache, net: Network, ts: seq<TileCoords>, now: int): (r: Loaded<seq<Bytes>>)
    ensures r.value.Some? ==> |r.value.value| == |ts|
    decreases |ts|
  {
    if ts == [] then Loaded(Some([]), cache)
    else
      var first := Load(l, cache, net, ts[0], now);
      if first.value.None? then Loaded(None, first.cache)
      else
        var rest := LoadAll(l, first.cache, net, ts[1..], now);
        Loaded(if rest.value.Some? then Some([first.value.value] + rest.value.value) else None, rest.cache)
  }

  // ---------------------------------------------------------------------------
  // What loading can deliver depends only on the cache and the network.

  predicate CachedTile(cache: Cache, l: Loader, t: TileCoords) {
    var name := TileFilename(t, l.version);
    name in cache && cache[name].content.Binary?
  }

  /** A tile loads when it is cached or the network delivers it. */
  predicate Available(cache: Cache, l: Loader, net: Network, t: TileCoords) {
    CachedTile(cache, l, t) || Accepted(net(RequestFor(l, t)))
  }

  /** The data a load of `t` yields: the cached data, else what the network serves. */
  function TileData(cache: Cache, l: Loader, net: Network, t: TileCoords): Bytes {
    if CachedTile(cache, l, t) then cache[TileFilename(t, l.version)].content.data
    else if net(RequestFor(l, t)).Response? then net(RequestFor(l, t)).body
    else []
  }

  /** Tile `t` loads alike from `c0` and `c1`. */
  predicate SameTile(c0: Cache, c1: Cache, l: Loader, net: Network, t: TileCoords) {
    (Available(c1, l, net, t) <==> Available(c0, l, net, t))
    && (Available(c0, l, net, t) ==> TileData(c1, l, net, t) == TileData(c0, l, net, t))
  }

  /** Two caches from which every tile loads alike. */
  ghost predicate Equivalent(c0: Cache, c1: Cache, l: Loader, net: Network) {
    forall t :: SameTile(c0, c1, l, net, t)
  }

  lemma EquivalentTransitive(c0: Cache, c1: Cache, c2: Cache, l: Loader, net: Network)
    requires Equivalent(c0, c1, l, net) && Equivalent(c1, c2, l, net)
    ensures Equivalent(c0, c2, l, net)
  {
    forall t ensures SameTile(c0, c2, l, net, t)
    {
      assert SameTile(c0, c1, l, net, t) && SameTile(c1, c2, l, net, t);
    }
  }

  /** A load succeeds exactly when the tile is available, yields its data, and
      leaves a cache from which every tile loads as before: refreshing a file
      keeps its data, and a downloaded tile is only written to its own file. */
  lemma LoadSpec(l: Loader, cache: Cache, net: Network, t: TileCoords, now: int)
    ensures var r := Load(l, cache, net, t, now);
      && (r.value.Some? <==> Available(cache, l, net, t))
      && (r.value.Some? ==> r.value.value == TileData(cache, l, net, t))
      && Equivalent(cache, r.cache, l, net)
  {
    var (hit, touched) := ReadTile(cache, t, l.version, now);
    assert Equivalent(cache, touched, l, net) by {
      forall t' ensures SameTile(cache, touched, l, net, t')
      {
        assert CachedTile(touched, l, t') == CachedTile(cache, l, t');
      }
    }
    if hit.None? && Accepted(net(RequestFor(l, t))) {
      var body := net(RequestFor(l, t)).body;
      var written := WriteTile(touched, t, l.version, body, now);
      forall t' ensures SameTile(touched, written, l, net, t')
      {
        if TileFilename(t', l.version) == TileFilename(t, l.version) {
          TileFilenameInjective(t', l.version, t, l.version);
        }
      }
      EquivalentTransitive(cache, touched, written, l, net);
    }
  }

  /** Every tile of `ts` is available. */
  predicate AllAvailable(cache: Cache, l: Loader, net: Network, ts: seq<TileCoords>)
    decreases |ts|
  {
    ts == [] || (Available(cache, l, net, ts[0]) && AllAvailable(cache, l, net, ts[1..]))
  }

  /** The data each tile of `ts` loads as. */
  function AllData(cache: Cache, l: Loader, net: Network, ts: seq<TileCoords>): (r: seq<Bytes>)
    ensures |r| == |ts|
    ensures forall i :: 0 <= i < |ts| ==> r[i] == TileData(cache, l, net, ts[i])
  {
    seq(|ts|, i requires 0 <= i < |ts| => TileData(cache, l, net, ts[i]))
  }

  lemma {:induction false} AllAvailableIff(cache: Cache, l: Loader, net: Network, ts: seq<TileCoords>)
    ensures AllAvailable(cache, l, net, ts) <==> forall i :: 0 <= i < |ts| ==> Available(cache, l, net, ts[i])
    decreases |ts|
  {
    if ts != [] {
      AllAvailableIff(cache, l, net, ts[1..]);
      assert forall i :: 1 <= i < |ts| ==> ts[i] == ts[1..][i - 1];
    }
  }

  lemma {:induction false} AllAvailableEquivalent(c0: Cache, c1: Cache, l: Loader, net: Network, ts: seq<TileCoords>)
    requires Equivalent(c0, c1, l, net)
    ensures AllAvailable(c1, l, net, ts) <==> AllAvailable(c0, l, net, ts)
    ensures AllAvailable(c0, l, net, ts) ==> AllData(c1, l, net, ts) == AllData(c0, l, net, ts)
    decreases |ts|
  {
    if ts != [] {
      assert SameTile(c0, c1, l, net, ts[0]);
      AllAvailableEquivalent(c0, c1, l, net, ts[1..]);
      if AllAvailable(c0, l, net, ts) {
        AllAvailableIff(c0, l, net, ts);
      }
    }
  }

  /** Loading a list succeeds exactly when every tile in it is available, and
      leaves a cache from which every tile loads alike. */
  lemma {:induction false} LoadAllSpec(l: Loader, cache: Cache, net: Network, ts: seq<TileCoords>, now: int)
    ensures var r := LoadAll(l, cache, net, ts, now);
      && (r.value.Some? <==> AllAvailable(cache, l, net, ts))
      && Equivalent(cache, r.cache, l, net)
    decreases |ts|
  {
    if ts != [] {
      var first := Load(l, cache, net, ts[0], now);
      LoadSpec(l, cache, net, ts[0], now);
      if first.value.Some? {
        LoadAllSpec(l, first.cache, net, ts[1..], now);
        var rest := LoadAll(l, first.cache, net, ts[1..], now);
        EquivalentTransitive(cache, first.cache, rest.cache, l, net);
        AllAvailableEquivalent(cache, first.cache, l, net, ts[1..]);
      }
    }
  }

  /** A successful load of a list yields each tile's data. */
  lemma {:induction false} LoadAllData(l: Loader, cache: Cache, net: Network, ts: seq<TileCoords>, now: int)
    ensures var r := LoadAll(l, cache, net, ts, now);
      r.value.Some? ==> r.value.value == AllData(cache, l, net, ts)
    decreases |ts|
  {
    if ts != [] {
      var first := Load(l, cache, net, ts[0], now);
      LoadSpec(l, cache, net, ts[0], now);
      if first.value.Some? {
        LoadAllData(l, first.cache, net, ts[1..], now);
        LoadAllSpec(l, first.cache, net, ts[1..], now);
        var rest := LoadAll(l, first.cache, net, ts[1..], now);
        if rest.value.Some? {
          AllAvailableEquivalent(cache, first.cache, l, net, ts[1..]);
          AllDataSplits(cache, l, net, ts);
        }
      }
    }
  }

  lemma AllDataSplits(cache: Cache, l: Loader, net: Network, ts: seq<TileCoords>)
    requires ts != []
    ensures AllData(cache, l, net, ts) == [TileData(cache, l, net, ts[0])] + AllData(cache, l, net, ts[1..])
  {
    var a := AllData(cache, l, net, ts);
    var b := AllData(cache, l, net, ts[1..]);
    forall i | 1 <= i < |a| ensures a[i] == b[i - 1] {
      assert ts[1..][i - 1] == ts[i];
    }
    HeadAndTail(a, b);
  }

  /** A non-empty sequence is its head followed by whatever agrees with its tail. */
  lemma HeadAndTail<T>(a: seq<T>, b: seq<T>)
    requires |a| >= 1 && |b| == |a| - 1
    requires forall i :: 1 <= i < |a| ==> a[i] == b[i - 1]
    ensures a == [a[0]] + b
  {
    assert a[1..] == b;
  }

  /** `c1` differs from `c0` at most in tile (`.jpg`) files. */
  ghost predicate OnlyTilesChanged(c0: Cache, c1: Cache) {
    forall name :: !EndsWith(name, TileSuffix) ==>
      (name in c1 <==> name in c0) && (name in c0 ==> c1[name] == c0[name])
  }

  /** Loading a tile refreshes or writes that tile's file and no other kind of file. */
  lemma LoadKeepsOtherFiles(l: Loader, cache: Cache, net: Network, t: TileCoords, now: int)
    ensures OnlyTilesChanged(cache, Load(l, cache, net, t, now).cache)
  {
  }

  lemma {:induction false} LoadAllKeepsOtherFiles(l: Loader, cache: Cache, net: Network, ts: seq<TileCoords>, now: int)
    ensures OnlyTilesChanged(cache, LoadAll(l, cache, net, ts, now).cache)
    decreases |ts|
  {
    if ts != [] {
      var first := Load(l, cache, net, ts[0], now);
      LoadKeepsOtherFiles(l, cache, net, ts[0], now);
      if first.value.Some? {
        LoadAllKeepsOtherFiles(l, first.cache, net, ts[1..], now);
      }
    }
  }

  /** Fixed inputs of the ladder: the loader, the network, the grid laid out at
      each zoom level, and the current time. */
  datatype Env = Env(loader: Loader, net: Network, layoutAt: int -> Layout, now: int)

  /** Every tile of the grid at zoom `z` is available. */
  predicate GridAvailable(e: Env, cache: Cache, z: int) {
    AllAvailable(cache, e.loader, e.net, e.layoutAt(z).tiles)
  }

  datatype Outcome =
    | Mapped(zoom: int, layout: Layout, tiles: seq<Bytes>, cache: Cache)
    | NoImagery(zoom: int, cache: Cache)

  /** One rung of the ladder: lay out the grid at zoom `z` and load all of its tiles. */
  function Attempt(e: Env, cache: Cache, z: int): Loaded<seq<Bytes>> {
    LoadAll(e.loader, cache, e.net, e.layoutAt(z).tiles, e.now)
  }

  function Attempts(e: Env): (Cache, int) -> Loaded<seq<Bytes>> {
    (c: Cache, z: int) => Attempt(e, c, z)
  }

  /** The ladder's control flow for any way of attempting a zoom level: from
      `zoom` down to just above 8, the first attempt that delivers wins. */
  function Climb(layoutAt: int -> Layout, attempt: (Cache, int) -> Loaded<seq<Bytes>>, cache: Cache, zoom: int): Outcome
    decreases zoom
  {
    if zoom <= LowestTileZoom then NoImagery(zoom, cache)
    else
      var r := attempt(cache, zoom);
      if r.value.Some? then Mapped(zoom, layoutAt(zoom), r.value.value, r.cache)
      else Climb(layoutAt, attempt, r.cache, zoom - 1)
  }

  /** From `zoom` down to just above 8: lay out the grid and load all of its
      tiles; the first zoom level whose tiles all load wins. */
  function Ladder(e: Env, cache: Cache, zoom: int): Outcome {
    Climb(e.layoutAt, Attempts(e), cache, zoom)
  }

  lemma GridAvailableEquivalent(e: Env, c0: Cache, c1: Cache, z: int)
    requires Equivalent(c0, c1, e.loader, e.net)
    ensures GridAvailable(e, c1, z) <==> GridAvailable(e, c0, z)
    ensures GridAvailable(e, c0, z) ==>
      AllData(c1, e.loader, e.net, e.layoutAt(z).tiles) == AllData(c0, e.loader, e.net, e.layoutAt(z).tiles)
  {
    AllAvailableEquivalent(c0, c1, e.loader, e.net, e.layoutAt(z).tiles);
  }

  /** The ladder settles on the highest zoom level, not above the start and
      above 8, at which every grid tile is available in the starting cache, and
      shows exactly those tiles' data; without one it ends at zoom
      `min(start, 8)` with no imagery. */
  lemma LadderSpec(e: Env, cache: Cache, zoom: int)
    ensures var o := Ladder(e, cache, zoom);
      && (o.Mapped? ==>
            && LowestTileZoom < o.zoom <= zoom
            && o.layout == e.layoutAt(o.zoom)
            && GridAvailable(e, cache, o.zoom)
            && (forall z :: o.zoom < z <= zoom ==> !GridAvailable(e, cache, z))
            && o.tiles == AllData(cache, e.loader, e.net, o.layout.tiles))
      && (o.NoImagery? ==>
            && o.zoom == (if zoom < LowestTileZoom then zoom else LowestTileZoom)
            && forall z :: LowestTileZoom < z <= zoom ==> !GridAvailable(e, cache, z))
  {
    LadderShape(e, cache, zoom);
    LadderAvailability(e, cache, zoom);
  }

  lemma LadderShape(e: Env, cache: Cache, zoom: int)
    ensures var o := Ladder(e, cache, zoom);
      && (o.Mapped? ==> LowestTileZoom < o.zoom <= zoom && o.layout == e.layoutAt(o.zoom))
      && (o.NoImagery? ==> o.zoom == (if zoom < LowestTileZoom then zoom else LowestTileZoom))
  {
    ClimbShape(e.layoutAt, Attempts(e), cache, zoom);
  }

  /** Whatever the attempts do, the ladder stops within its range and shows the
      grid of the zoom level it stops at. */
  lemma {:induction false} ClimbShape(layoutAt: int -> Layout, attempt: (Cache, int) -> Loaded<seq<Bytes>>, cache: Cache, zoom: int)
    ensures var o := Climb(layoutAt, attempt, cache, zoom);
      && (o.Mapped? ==> LowestTileZoom < o.zoom <= zoom && o.layout == layoutAt(o.zoom))
      && (o.NoImagery? ==> o.zoom == (if zoom < LowestTileZoom then zoom else LowestTileZoom))
    decreases zoom
  {
    if zoom > LowestTileZoom {
      var r := attempt(cache, zoom);
      if r.value.None? {
        ClimbShape(layoutAt, attempt, r.cache, zoom - 1);
      }
    }
  }

  lemma {:induction false} LadderAvailability(e: Env, cache: Cache, zoom: int)
    ensures var o := Ladder(e, cache, zoom);
      && (o.Mapped? ==>
            && GridAvailable(e, cache, o.zoom)
            && (forall z :: o.zoom < z <= zoom ==> !GridAvailable(e, cache, z))
            && o.tiles == AllData(cache, e.loader, e.net, e.layoutAt(o.zoom).tiles))
      && (o.NoImagery? ==> forall z :: LowestTileZoom < z <= zoom ==> !GridAvailable(e, cache, z))
    decreases zoom
  {
    if zoom > LowestTileZoom {
      var ts := e.layoutAt(zoom).tiles;
      var r := Attempt(e, cache, zoom);
      LoadAllSpec(e.loader, cache, e.net, ts, e.now);
      if r.value.None? {
        LadderAvailabilityStep(e, cache, r.cache, zoom);
      } else {
        LoadAllData(e.loader, cache, e.net, ts, e.now);
      }
    }
  }

  /** After a failed attempt at `zoom`, the rest of the ladder, run on the cache
      that attempt left, answers as if run on the cache before it. */
  lemma {:induction false} LadderAvailabilityStep(e: Env, cache: Cache, c1: Cache, zoom: int)
    requires zoom > LowestTileZoom
    requires Equivalent(cache, c1, e.loader, e.net) && !GridAvailable(e, cache, zoom)
    ensures var o := Ladder(e, c1, zoom - 1);
      && (o.Mapped? ==>
            && GridAvailable(e, cache, o.zoom)
            && (forall z :: o.zoom < z <= zoom ==> !GridAvailable(e, cache, z))
            && o.tiles == AllData(cache, e.loader, e.net, e.layoutAt(o.zoom).tiles))
      && (o.NoImagery? ==> forall z :: LowestTileZoom < z <= zoom ==> !GridAvailable(e, cache, z))
    decreases zoom, 0
  {
    LadderAvailability(e, c1, zoom - 1);
    var o := Ladder(e, c1, zoom - 1);
    UnavailableAlike(e, cache, c1, if o.Mapped? then o.zoom else LowestTileZoom, zoom);
    if o.Mapped? {
      GridAvailableEquivalent(e, cache, c1, o.zoom);
    }
  }

  /** Zoom levels unavailable from an equivalent cache are unavailable from this one. */
  lemma UnavailableAlike(e: Env, cache: Cache, c1: Cache, low: int, zoom: int)
    requires Equivalent(cache, c1, e.loader, e.net) && !GridAvailable(e, cache, zoom)
    requires forall z :: low < z <= zoom - 1 ==> !GridAvailable(e, c1, z)
    ensures forall z :: low < z <= zoom ==> !GridAvailable(e, cache, z)
  {
    forall z | low < z <= zoom
      ensures !GridAvailable(e, cache, z)
    {
      if z < zoom {
        GridAvailableEquivalent(e, cache, c1, z);
      }
    }
  }

  /** The ladder changes tile files only. */
  lemma LadderKeepsOtherFiles(e: Env, cache: Cache, zoom: int)
    ensures OnlyTilesChanged(cache, Ladder(e, cache, zoom).cache)
  {
    forall c: Cache, z: int
      ensures OnlyTilesChanged(c, Attempts(e)(c, z).cache)
    {
      LoadAllKeepsOtherFiles(e.loader, c, e.net, e.layoutAt(z).tiles, e.now);
    }
    ClimbKeepsOtherFiles(e.layoutAt, Attempts(e), cache, zoom);
  }

  /** The ladder leaves the cached world map as it was. */
  lemma LadderKeepsWorldMap(e: Env, cache: Cache, zoom: int, f: WidgetFamily)
    ensures ReadWorldMap(Ladder(e, cache, zoom).cache, f) == ReadWorldMap(cache, f)
  {
    LadderKeepsOtherFiles(e, cache, zoom);
    AuxiliaryFilesAreNotTiles(f);
  }

  /** Attempts that change tile files only make a ladder that changes tile files only. */
  lemma {:induction false} ClimbKeepsOtherFiles(layoutAt: int -> Layout, attempt: (Cache, int) -> Loaded<seq<Bytes>>,
                                                cache: Cache, zoom: int)
    requires forall c: Cache, z: int :: OnlyTilesChanged(c, attempt(c, z).cache)
    ensures OnlyTilesChanged(cache, Climb(layoutAt, attempt, cache, zoom).cache)
    decreases zoom
  {
    if zoom > LowestTileZoom {
      var r := attempt(cache, zoom);
      assert OnlyTilesChanged(cache, r.cache);
      if r.value.None? {
        ClimbKeepsOtherFiles(layoutAt, attempt, r.cache, zoom - 1);
      }
    }
  }

  /** A grid whose first tile cannot be had is not available. */
  lemma FirstTileMissing(e: Env, cache: Cache, z: int)
    requires |e.layoutAt(z).tiles| >= 1 && !Available(cache, e.loader, e.net, e.layoutAt(z).tiles[0])
    ensures !GridAvailable(e, cache, z)
  {
  }

  /** With nothing cached, a network that serves imagery only up to zoom 14 and
      fails above it makes a ladder started at 18 settle on zoom 14, whatever
      the grid, as long as each zoom level's grid is non-empty and at that zoom. */
  lemma LadderExample(e: Env)
    requires forall z :: |e.layoutAt(z).tiles| >= 1
    requires forall z, i :: 0 <= i < |e.layoutAt(z).tiles| ==> e.layoutAt(z).tiles[i].z == z
    requires forall req :: e.net(req) == (if req.tile.z <= 14 then Response(200, []) else Unreachable)
    ensures Ladder(e, map[], 18).Mapped? && Ladder(e, map[], 18).zoom == 14
  {
    LadderSpec(e, map[], 18);
    var ts := e.layoutAt(14).tiles;
    AllAvailableIff(map[], e.loader, e.net, ts);
    assert GridAvailable(e, map[], 14);
    forall z | 14 < z <= 18
      ensures !GridAvailable(e, map[], z)
    {
      FirstTileMissing(e, map[], z);
    }
  }

  // ---------------------------------------------------------------------------
  // The world map.

  /** The low-resolution world map's tiles, with the grid cell each is drawn in,
      columns outer and rows inner. It is the whole world at zoom `v / 2`; the
      wide widget shows it twice, centred, with cell x holding tile (x + 1) % 2. */
  function WorldMapTiles(f: WidgetFamily): (r: seq<(Offset, TileCoords)>)
    ensures |r| == GridSize(f).0 * GridSize(f).1
  {
    var (h, v) := GridSize(f);
    seq(h * v, k requires 0 <= k < h * v =>
      var x, y := k / v, k % v;
      (Offset(x, y), TileCoords(if f == Medium then (x + 1) % 2 else x, y, v / 2)))
  }

  /** Every world-map tile exists at its zoom level; the small and large widgets
      show each cell's own tile, the wide one the centred pair. */
  lemma WorldMapTilesCoverWorld(f: WidgetFamily, k: nat)
    requires k < |WorldMapTiles(f)|
    ensures var (cell, t) := WorldMapTiles(f)[k];
      && t.z == GridSize(f).1 / 2
      && 0 <= t.x < Pow(2, t.z) && 0 <= t.y < Pow(2, t.z)
      && 0 <= cell.dx < GridSize(f).0 && 0 <= cell.dy < GridSize(f).1
      && (f != Medium ==> t.x == cell.dx && t.y == cell.dy)
      && (f == Medium ==> t.x == (if cell.dx % 2 == 0 then 1 else 0) && t.y == cell.dy)
  {
    var (h, v) := GridSize(f);
    CellOfIndex(k, v, h);
    assert Pow(2, 1) == 2 && Pow(2, 2) == 4;
  }

  /** Downloads every tile in order, caching each, stopping at the first failure. */
  function DownloadAll(l: Loader, cache: Cache, net: Network, ts: seq<TileCoords>, now: int): (r: Loaded<seq<Bytes>>)
    ensures r.value.Some? ==> |r.value.value| == |ts|
    decreases |ts|
  {
    if ts == [] then Loaded(Some([]), cache)
    else
      match Download(l, cache, net, ts[0], now)
      case Err(_) => Loaded(None, cache)
      case Ok((data, written)) =>
        var rest := DownloadAll(l, written, net, ts[1..], now);
        if rest.value.None? then Loaded(None, rest.cache)
        else Loaded(Some([data] + rest.value.value), rest.cache)
  }

  /** Downloading a list succeeds exactly when the network delivers every tile
      of it, and then yields the bodies it served, in order. */
  lemma DownloadAllSpec(l: Loader, cache: Cache, net: Network, ts: seq<TileCoords>, now: int)
    ensures var r := DownloadAll(l, cache, net, ts, now);
      && (r.value.Some? <==> forall i :: 0 <= i < |ts| ==> Accepted(net(RequestFor(l, ts[i]))))
      && (r.value.Some? ==> forall i :: 0 <= i < |ts| ==> r.value.value[i] == net(RequestFor(l, ts[i])).body)
  {
    DownloadAllSucceeds(l, cache, net, ts, now);
    if forall i :: 0 <= i < |ts| ==> Accepted(net(RequestFor(l, ts[i]))) {
      DownloadAllBodies(l, cache, net, ts, now);
      forall i | 0 <= i < |ts|
        ensures DownloadAll(l, cache, net, ts, now).value.value[i] == net(RequestFor(l, ts[i])).body
      {
        BodiesAt(l, net, ts, i);
      }
    }
  }

  lemma {:induction false} DownloadAllSucceeds(l: Loader, cache: Cache, net: Network, ts: seq<TileCoords>, now: int)
    ensures DownloadAll(l, cache, net, ts, now).value.Some? <==>
      forall i :: 0 <= i < |ts| ==> Accepted(net(RequestFor(l, ts[i])))
    decreases |ts|
  {
    if ts != [] {
      var d := Download(l, cache, net, ts[0], now);
      var r := DownloadAll(l, cache, net, ts, now);
      if d.Ok? {
        var written := d.value.1;
        var rest := DownloadAll(l, written, net, ts[1..], now);
        DownloadAllSucceeds(l, written, net, ts[1..], now);
        assert r.value.Some? <==> rest.value.Some?;
        if rest.value.Some? {
          forall i | 0 <= i < |ts|
            ensures Accepted(net(RequestFor(l, ts[i])))
          {
            if i > 0 {
              assert ts[i] == ts[1..][i - 1];
            }
          }
        } else {
          var j :| 0 <= j < |ts| - 1 && !Accepted(net(RequestFor(l, ts[1..][j])));
          assert ts[j + 1] == ts[1..][j];
        }
      } else {
        assert r.value.None? && !Accepted(net(RequestFor(l, ts[0])));
      }
    }
  }

  /** What the network serves for `t`: the body of its response, empty when unreachable. */
  function Served(l: Loader, net: Network, t: TileCoords): Bytes {
    if net(RequestFor(l, t)).Response? then net(RequestFor(l, t)).body else []
  }

  /** The bodies the network serves for `ts`, in order. */
  function Bodies(l: Loader, net: Network, ts: seq<TileCoords>): (bs: seq<Bytes>)
    ensures |bs| == |ts|
  {
    if ts == [] then [] else [Served(l, net, ts[0])] + Bodies(l, net, ts[1..])
  }

  lemma {:induction false} BodiesAt(l: Loader, net: Network, ts: seq<TileCoords>, i: nat)
    requires i < |ts|
    ensures Bodies(l, net, ts)[i] == Served(l, net, ts[i])
    decreases i
  {
    if i > 0 {
      BodiesAt(l, net, ts[1..], i - 1);
    }
  }

  /** When the network delivers every tile, downloading yields exactly what it served. */
  lemma {:induction false} DownloadAllBodies(l: Loader, cache: Cache, net: Network, ts: seq<TileCoords>, now: int)
    requires forall i :: 0 <= i < |ts| ==> Accepted(net(RequestFor(l, ts[i])))
    ensures DownloadAll(l, cache, net, ts, now).value == Some(Bodies(l, net, ts))
    decreases |ts|
  {
    if ts != [] {
      assert Accepted(net(RequestFor(l, ts[0])));
      var written := Download(l, cache, net, ts[0], now).value.1;
      forall i | 0 <= i < |ts| - 1
        ensures Accepted(net(RequestFor(l, ts[1..][i])))
      {
        assert ts[1..][i] == ts[i + 1];
      }
      DownloadAllBodies(l, written, net, ts[1..], now);
    }
  }

  function Seconds<A, B>(ps: seq<(A, B)>): (r: seq<B>)
    ensures |r| == |ps| && forall i :: 0 <= i < |ps| ==> r[i] == ps[i].1
  {
    seq(|ps|, i requires 0 <= i < |ps| => ps[i].1)
  }

  /** Fetches and caches the world map unless a file of that name exists; a
      failed download ends the run. */
  function PreloadWorldMap(l: Loader, cache: Cache, net: Network, f: WidgetFamily, now: int): (r: Step<Cache>)
    ensures WorldMapFilename(f) in cache ==> r == Proceed(cache)
    ensures WorldMapFilename(f) !in cache ==>
      (r.Proceed? <==> forall k :: 0 <= k < |WorldMapTiles(f)| ==> Accepted(net(RequestFor(l, WorldMapTiles(f)[k].1))))
    ensures r.Proceed? ==> WorldMapFilename(f) in r.state
  {
    if WorldMapFilename(f) in cache then Proceed(cache)
    else
      var ts := Seconds(WorldMapTiles(f));
      var r := DownloadAll(l, cache, net, ts, now);
      DownloadAllSpec(l, cache, net, ts, now);
      if r.value.Some? then Proceed(WriteWorldMap(r.cache, f, r.value.value, now))
      else Halt(r.cache, WorldMapMessage)
  }

  /** Where the point sits on the world map: the wide widget shows the map in
      its middle half. */
  function WorldMapOffset(f: WidgetFamily, p: Projection): (o: PointOffset)
    requires ValidRemainders(p)
    ensures 0.0 <= o.x < 1.0 && 0.0 <= o.y < 1.0
    ensures o.y == p.yRemainder
    ensures f == Medium ==> 0.25 <= o.x < 0.75 && 2.0 * (o.x - 0.25) == p.xRemainder
    ensures f != Medium ==> o.x == p.xRemainder
  {
    if f == Medium then PointOffset(0.25 + p.xRemainder / 2.0, p.yRemainder)
    else PointOffset(p.xRemainder, p.yRemainder)
  }

  // ---------------------------------------------------------------------------
  // The imagery version.

  const VersionMarker: string := "khms0.googleapis.com/kh?v="

  /** The digits after the first marker that is followed by at least one digit,
      as the pattern `khms0\.googleapis\.com\/kh\?v=([0-9]+)` finds them. */
  function ScrapeVersion(code: string): (r: Option<nat>)
    decreases |code|
  {
    if |code| < |VersionMarker| then None
    else if code[..|VersionMarker|] == VersionMarker && LeadingNumber(code[|VersionMarker|..]).Some? then
      LeadingNumber(code[|VersionMarker|..])
    else ScrapeVersion(code[1..])
  }

  /** The marker occurs at `i` and is followed by at least one digit. */
  predicate MarkerAt(code: string, i: int) {
    0 <= i <= |code| - |VersionMarker| && code[i..i + |VersionMarker|] == VersionMarker
    && LeadingNumber(code[i + |VersionMarker|..]).Some?
  }

  /** `i` is the first place the pattern matches. */
  predicate FirstMarkerAt(code: string, i: int) {
    MarkerAt(code, i) && forall j :: 0 <= j < i ==> !MarkerAt(code, j)
  }

  /** Dropping the first character moves every match one place to the left. */
  lemma MarkerShift(code: string, i: int)
    requires |code| >= 1 && 0 <= i
    ensures MarkerAt(code[1..], i) <==> MarkerAt(code, i + 1)
  {
    var k := |VersionMarker|;
    if i <= |code| - 1 - k {
      assert code[1..][i..i + k] == code[i + 1..i + 1 + k];
      assert code[1..][i + k..] == code[i + 1 + k..];
    }
  }

  /** The scrape finds nothing exactly when the pattern matches nowhere, and
      otherwise reads the number after the first match. */
  lemma {:induction false} ScrapeVersionSpec(code: string)
    ensures ScrapeVersion(code).None? <==> forall i :: !MarkerAt(code, i)
    ensures ScrapeVersion(code).Some? ==>
      exists i :: FirstMarkerAt(code, i) && ScrapeVersion(code) == LeadingNumber(code[i + |VersionMarker|..])
    decreases |code|
  {
    var k := |VersionMarker|;
    if |code| < k {
    } else if MarkerAt(code, 0) {
      assert code[..k] == code[0..k];
      assert FirstMarkerAt(code, 0);
    } else {
      assert code[..k] == code[0..k];
      assert ScrapeVersion(code) == ScrapeVersion(code[1..]);
      ScrapeVersionSpec(code[1..]);
      if ScrapeVersion(code).None? {
        forall i ensures !MarkerAt(code, i) {
          if i > 0 { MarkerShift(code, i - 1); }
        }
      } else {
        var i' :| FirstMarkerAt(code[1..], i') && ScrapeVersion(code) == LeadingNumber(code[1..][i' + k..]);
        MarkerShift(code, i');
        forall j | 0 <= j < i' + 1 ensures !MarkerAt(code, j) {
          if j > 0 { MarkerShift(code, j - 1); }
        }
        assert code[1..][i' + k..] == code[i' + 1 + k..];
        assert FirstMarkerAt(code, i' + 1);
      }
    }
  }

  /** Conversely, the scrape reads the number after the first match. */
  lemma {:induction false} ScrapeVersionFirst(code: string, i: int)
    requires FirstMarkerAt(code, i)
    ensures ScrapeVersion(code) == LeadingNumber(code[i + |VersionMarker|..])
    decreases i
  {
    var k := |VersionMarker|;
    assert code[..k] == code[0..k];
    if i > 0 {
      assert !MarkerAt(code, 0);
      MarkerShift(code, i - 1);
      forall j | 0 <= j < i - 1 ensures !MarkerAt(code[1..], j) {
        MarkerShift(code, j);
      }
      ScrapeVersionFirst(code[1..], i - 1);
      assert code[1..][i - 1 + k..] == code[i + k..];
    }
  }

  /** A page that embeds the marker and a printed number, with no match before
      it, yields that number. */
  lemma ScrapeFindsVersion(prefix: string, n: nat, suffix: string)
    requires suffix == [] || !IsDigit(suffix[0])
    requires forall j :: 0 <= j < |prefix| ==> !MarkerAt(prefix + VersionMarker + (NatToString(n, 10) + suffix), j)
    ensures ScrapeVersion(prefix + VersionMarker + (NatToString(n, 10) + suffix)) == Some(n)
  {
    var code := prefix + VersionMarker + (NatToString(n, 10) + suffix);
    var i := |prefix|;
    ValueOfNatToString(n, 10);
    LeadingNumberOfDigits(NatToString(n, 10), suffix);
    assert code[i..i + |VersionMarker|] == VersionMarker;
    assert code[i + |VersionMarker|..] == NatToString(n, 10) + suffix;
    assert FirstMarkerAt(code, i);
    ScrapeVersionFirst(code, i);
  }

  /** A cached version is used when it is truthy and under a week old. */
  predicate FreshCachedVersion(cache: Cache, now: int) {
    var cached := ReadVersion(cache);
    cached.Some? && cached.value != 0 && VersionAgeDays(cache, now) < 7.0
  }

  /** The number the version pattern captures in the fetched page; `None` when
      the request failed or the pattern does not match. */
  function PageVersion(page: Option<string>): Option<nat> {
    if page.None? then None else ScrapeVersion(page.value)
  }

  /** The page offers a version the widget accepts: one above 900. */
  predicate OffersVersion(page: Option<string>) {
    PageVersion(page).Some? && PageVersion(page).value > 900
  }

  /** Asks the Maps API page for the version; a number above 900 is taken and
      cached, anything else keeps `keep`. `page` is `None` when the request failed. */
  function Refresh(cache: Cache, now: int, page: Option<string>, keep: int): (r: (int, Cache))
    ensures (r.0 == keep && r.1 == cache) || (r.0 > 900 && r.1 == WriteVersion(cache, r.0, now))
    ensures page.None? || ScrapeVersion(page.value).None? ==> r == (keep, cache)
    ensures page.Some? && ScrapeVersion(page.value).Some? && ScrapeVersion(page.value).value > 900 ==>
      r == (ScrapeVersion(page.value).value, WriteVersion(cache, ScrapeVersion(page.value).value, now))
    ensures page.Some? && ScrapeVersion(page.value).Some? && ScrapeVersion(page.value).value <= 900 ==>
      r == (keep, cache)
  {
    if page.None? then (keep, cache)
    else
      match ScrapeVersion(page.value)
      case None => (keep, cache)
      case Some(n) => if n != 0 && n > 900 then (n, WriteVersion(cache, n, now)) else (keep, cache)
  }

  /** The version as the widget determines it: a fresh cached one, else a
      scraped one, else `current` (the loader's version, 995), even when a stale
      cached version exists. */
  function DetermineVersionAsWritten(cache: Cache, now: int, page: Option<string>, current: int): (r: (int, Cache))
    ensures FreshCachedVersion(cache, now) ==> r == (ReadVersion(cache).value, cache)
    ensures !FreshCachedVersion(cache, now) && OffersVersion(page) ==>
      r == (PageVersion(page).value, WriteVersion(cache, PageVersion(page).value, now))
    ensures !FreshCachedVersion(cache, now) && !OffersVersion(page) ==> r == (current, cache)
  {
    if FreshCachedVersion(cache, now) then (ReadVersion(cache).value, cache)
    else Refresh(cache, now, page, current)
  }

  /** As above, but when scraping fails a stale cached version is kept, as the
      widget's own comment intends. */
  function DetermineVersion(cache: Cache, now: int, page: Option<string>, current: int): (r: (int, Cache))
    ensures FreshCachedVersion(cache, now) ==> r == (ReadVersion(cache).value, cache)
    ensures !FreshCachedVersion(cache, now) && OffersVersion(page) ==>
      r == (PageVersion(page).value, WriteVersion(cache, PageVersion(page).value, now))
    ensures !FreshCachedVersion(cache, now) && !OffersVersion(page)
            && ReadVersion(cache).Some? && ReadVersion(cache).value != 0 ==>
      r == (ReadVersion(cache).value, cache)
    ensures !FreshCachedVersion(cache, now) && !OffersVersion(page)
            && (ReadVersion(cache).None? || ReadVersion(cache).value == 0) ==>
      r == (current, cache)
  {
    var cached := ReadVersion(cache);
    if FreshCachedVersion(cache, now) then (cached.value, cache)
    else Refresh(cache, now, page, if cached.Some? && cached.value != 0 then cached.value else current)
  }

  /** A version file written 8 days ago holding 1000, and an unreachable Maps
      API: the widget falls back to 995 although its comment promises 1000. */
  lemma StaleVersionDiscarded(now: int)
    ensures var cache := map[VersionFile := File(Text("1000"), now - 8 * MsPerDay)];
      && DetermineVersionAsWritten(cache, now, None, FallbackVersion).0 == FallbackVersion
      && DetermineVersion(cache, now, None, FallbackVersion).0 == 1000
  {
    var cache := map[VersionFile := File(Text("1000"), now - 8 * MsPerDay)];
    VersionRoundTrip(map[], 1000, now - 8 * MsPerDay, now);
    assert IntToString(1000) == "1000" by {
      assert NatToString(1000, 10) == "1000";
    }
    assert cache == WriteVersion(map[], 1000, now - 8 * MsPerDay);
  }

  /** When scraping fails, a stale but truthy cached version is kept. */
  lemma StaleVersionKept(cache: Cache, now: int, page: Option<string>)
    requires !FreshCachedVersion(cache, now)
    requires ReadVersion(cache).Some? && ReadVersion(cache).value != 0
    requires page.None? || ScrapeVersion(page.value).None?
    ensures DetermineVersion(cache, now, page, FallbackVersion) == (ReadVersion(cache).value, cache)
  {
  }

  /** Once a version has been scraped and cached, every run in the following
      week uses it, whatever the page says. */
  lemma VersionSticky(cache: Cache, now: int, page: Option<string>, later: int, page': Option<string>, current: int)
    requires DetermineVersion(cache, now, page, current).1 != cache
    requires now <= later < now + 7 * MsPerDay
    ensures var (n, c) := DetermineVersion(cache, now, page, current);
      DetermineVersion(c, later, page', current) == (n, c)
  {
    var (n, c) := DetermineVersion(cache, now, page, current);
    VersionRoundTrip(cache, n, now, later);
    AgeBelowWeek(later - now);
  }

  lemma AgeBelowWeek(ms: int)
    requires 0 <= ms < 7 * MsPerDay
    ensures ms as real / MsPerDay as real < 7.0
  {
  }

  /** With nothing cached, a page carrying version 987 sets and caches 987. */
  lemma VersionFromPage(now: int, suffix: string)
    requires suffix == [] || !IsDigit(suffix[0])
    ensures DetermineVersion(map[], now, Some(VersionMarker + (NatToString(987, 10) + suffix)), FallbackVersion)
         == (987, WriteVersion(map[], 987, now))
  {
    assert [] + VersionMarker == VersionMarker;
    ScrapeFindsVersion([], 987, suffix);
  }

  // ---------------------------------------------------------------------------
  // The location.

  datatype Located = Located(loc: Location, fromCache: bool, cache: Cache)

  predicate Usable(loc: Option<Location>) {
    loc.Some? && loc.value.Fix?
  }

  /** The operating system's location when it gives one with fields (and then
      cached), else the cached one; with neither the run ends. */
  function ResolveLocation(os: Option<Location>, cache: Cache, now: int): (r: Result<Located>)
    ensures r.Ok? <==> Usable(os) || Usable(ReadLocation(cache))
    ensures r.Ok? ==> r.value.loc.Fix?
    ensures Usable(os) ==> r == Ok(Located(os.value, false, WriteLocation(cache, os.value, now)))
    ensures !Usable(os) && r.Ok? ==> r.value == Located(ReadLocation(cache).value, true, cache)
  {
    if Usable(os) then Ok(Located(os.value, false, WriteLocation(cache, os.value, now)))
    else
      var cached := ReadLocation(cache);
      if Usable(cached) then Ok(Located(cached.value, true, cache))
      else Err(NoLocationMessage)
  }

  /** After a run that got a location from the system, a run without one shows
      that same location, marked as cached. */
  lemma LastLocationRemembered(fix: Location, cache: Cache, now: int, later: int)
    requires fix.Fix?
    ensures var first := ResolveLocation(Some(fix), cache, now);
      && first.Ok?
      && ResolveLocation(None, first.value.cache, later) == Ok(Located(fix, true, first.value.cache))
  {
    LocationRoundTrip(cache, fix, now);
  }

  // ---------------------------------------------------------------------------
  // One run.

  /** Everything a run takes from outside: the widget family, the server draw,
      the Maps API page, the system's location, the network, the projection of
      that location at each zoom level, the starting zoom and the clock. */
  datatype Inputs = Inputs(
    family: WidgetFamily, serverDraw: real, page: Option<string>, os: Option<Location>,
    net: Network, proj: int -> Projection, initialZoom: int, now: int)

  ghost predicate ValidInputs(inp: Inputs) {
    0.0 <= inp.serverDraw < 1.0 && forall z :: ValidRemainders(inp.proj(z))
  }

  datatype Shown = TileMap(layout: Layout, tiles: seq<Bytes>) | WorldMap(image: Content)

  datatype Run =
    | Rendered(shown: Shown, offset: PointOffset, zoom: int, loc: Location, fromCache: bool, cache: Cache)
    | Stopped(message: string, cache: Cache)

  /** The grid of the widget's family at each zoom level. */
  function LayoutsFor(inp: Inputs): (f: int -> Layout)
    requires ValidInputs(inp)
    ensures forall z :: f(z) == GridLayout(inp.proj(z), z, GridSize(inp.family).0, GridSize(inp.family).1)
  {
    var (h, v) := GridSize(inp.family);
    z => GridLayout(inp.proj(z), z, h, v)
  }

  /** A run up to the map: the environment the ladder works in and the located
      cache, or the message and cache of a run that stopped early. */
  datatype Prepared = Ready(env: Env, located: Located) | Halted(message: string, cache: Cache)

  /** Purge, settle the version, make sure a world map is cached, find the location. */
  function Prelude(inp: Inputs, cache: Cache): (p: Prepared)
    requires ValidInputs(inp)
    ensures p.Ready? ==>
      && p.env.layoutAt == LayoutsFor(inp) && p.env.net == inp.net && p.env.now == inp.now
      && p.located.loc.Fix?
    ensures p.Halted? ==> p.message == WorldMapMessage || p.message == NoLocationMessage
  {
    match Purge(cache, CacheDuration, inp.now)
    case Halt(c, m) => Halted(m, c)
    case Proceed(purged) =>
      var l0 := NewLoader(inp.serverDraw);
      var (version, c1) := DetermineVersion(purged, inp.now, inp.page, l0.version);
      var l := Loader(l0.server, version);
      match PreloadWorldMap(l, c1, inp.net, inp.family, inp.now)
      case Halt(c2, m) => Halted(m, c2)
      case Proceed(c2) =>
        match ResolveLocation(inp.os, c2, inp.now)
        case Err(m) => Halted(m, c2)
        case Ok(located) => Ready(Env(l, inp.net, LayoutsFor(inp), inp.now), located)
  }

  /** With the world map already cached the prelude cannot fail on the
      download, and with a location from the system or the cache as well it
      always reaches the map. */
  lemma PreludeReady(inp: Inputs, cache: Cache)
    requires ValidInputs(inp)
    ensures WorldMapFilename(inp.family) in cache ==>
      Prelude(inp, cache).Ready? || Prelude(inp, cache).message == NoLocationMessage
    ensures WorldMapFilename(inp.family) in cache && (Usable(inp.os) || Usable(ReadLocation(cache))) ==>
      Prelude(inp, cache).Ready?
  {
    var purged := Purge(cache, CacheDuration, inp.now).state;
    PurgeKeepsAuxiliary(cache, CacheDuration, inp.now, inp.family);
    AuxiliaryFilesAreNotTiles(inp.family);
    var l0 := NewLoader(inp.serverDraw);
    var (version, c1) := DetermineVersion(purged, inp.now, inp.page, l0.version);
    assert c1 == purged || c1 == WriteVersion(purged, version, inp.now);
    if WorldMapFilename(inp.family) in cache {
      assert WorldMapFilename(inp.family) in c1;
      assert ReadLocation(c1) == ReadLocation(cache);
    }
  }

  /** Purge, settle the version, make sure a world map is cached, find the
      location, then walk the zoom ladder, falling back to the world map. A
      tile map is drawn at the highest zoom above 8, and at most the starting
      zoom, whose whole grid loads from the cache the prelude leaves; the world
      map only when no such zoom exists. */
  function RunWidget(inp: Inputs, cache: Cache): (r: Run)
    requires ValidInputs(inp)
    ensures r.Rendered? ==> r.loc.Fix? && Prelude(inp, cache).Ready?
    ensures r.Rendered? && r.shown.TileMap? ==> LowestTileZoom < r.zoom <= inp.initialZoom
    ensures r.Rendered? && r.shown.TileMap? ==>
      r.shown.layout == GridLayout(inp.proj(r.zoom), r.zoom, GridSize(inp.family).0, GridSize(inp.family).1)
      && r.offset == r.shown.layout.offset
    ensures r.Rendered? && r.shown.TileMap? ==>
      var p := Prelude(inp, cache);
      && GridAvailable(p.env, p.located.cache, r.zoom)
      && forall z :: r.zoom < z <= inp.initialZoom ==> !GridAvailable(p.env, p.located.cache, z)
    ensures r.Rendered? && r.shown.WorldMap? ==>
      r.zoom <= LowestTileZoom && r.offset == WorldMapOffset(inp.family, inp.proj(0))
    ensures r.Rendered? && r.shown.WorldMap? ==>
      var p := Prelude(inp, cache);
      forall z :: LowestTileZoom < z <= inp.initialZoom ==> !GridAvailable(p.env, p.located.cache, z)
    ensures r.Stopped? ==> Prelude(inp, cache).Halted? || r.message == NoImageryMessage
    ensures Prelude(inp, cache).Halted? ==> r == Stopped(Prelude(inp, cache).message, Prelude(inp, cache).cache)
    ensures var p := Prelude(inp, cache);
      p.Ready? && (exists z :: LowestTileZoom < z <= inp.initialZoom && GridAvailable(p.env, p.located.cache, z)) ==>
      r.Rendered? && r.shown.TileMap?
    ensures var p := Prelude(inp, cache);
      p.Ready? && ReadWorldMap(p.located.cache, inp.family).Some? ==> r.Rendered?
  {
    var p := Prelude(inp, cache);
    if p.Halted? then Stopped(p.message, p.cache) else ShowMap(inp, p.env, p.located)
  }

  /** What the widget throws when neither tiles nor the cached world map are there. */
  const NoImageryMessage := "couldn't retrieve any imagery at anything close to the ideal zoom levels, maybe you're offline; also couldn't load low-resolution world map from cache. i tried."

  /** The map part of a run, once the location is known. */
  function ShowMap(inp: Inputs, e: Env, located: Located): (r: Run)
    requires ValidInputs(inp) && e.layoutAt == LayoutsFor(inp) && located.loc.Fix?
    ensures r.Rendered? ==> r.loc == located.loc && r.fromCache == located.fromCache
    ensures r.Rendered? && r.shown.TileMap? ==> LowestTileZoom < r.zoom <= inp.initialZoom
    ensures r.Rendered? && r.shown.TileMap? ==>
      r.shown.layout == GridLayout(inp.proj(r.zoom), r.zoom, GridSize(inp.family).0, GridSize(inp.family).1)
      && r.offset == r.shown.layout.offset
    ensures r.Rendered? && r.shown.WorldMap? ==>
      r.zoom <= LowestTileZoom && r.offset == WorldMapOffset(inp.family, inp.proj(0))
    ensures r.Rendered? && r.shown.TileMap? ==>
      && GridAvailable(e, located.cache, r.zoom)
      && forall z :: r.zoom < z <= inp.initialZoom ==> !GridAvailable(e, located.cache, z)
    ensures r.Rendered? && r.shown.WorldMap? ==>
      forall z :: LowestTileZoom < z <= inp.initialZoom ==> !GridAvailable(e, located.cache, z)
    ensures (exists z :: LowestTileZoom < z <= inp.initialZoom && GridAvailable(e, located.cache, z)) ==>
      r.Rendered? && r.shown.TileMap?
    ensures r.Rendered? && r.shown.WorldMap? ==> ReadWorldMap(located.cache, inp.family) == Some(r.shown.image)
    ensures ReadWorldMap(located.cache, inp.family).Some? ==> r.Rendered?
    ensures r.Stopped? ==> r.message == NoImageryMessage && ReadWorldMap(located.cache, inp.family).None?
  {
    var o := Ladder(e, located.cache, inp.initialZoom);
    LadderSpec(e, located.cache, inp.initialZoom);
    LadderKeepsWorldMap(e, located.cache, inp.initialZoom, inp.family);
    match o
    case Mapped(z, g, tiles, c3) =>
      Rendered(TileMap(g, tiles), g.offset, z, located.loc, located.fromCache, c3)
    case NoImagery(z, c3) =>
      match ReadWorldMap(c3, inp.family)
      case None => Stopped(NoImageryMessage, c3)
      case Some(image) =>
        Rendered(WorldMap(image), WorldMapOffset(inp.family, inp.proj(0)), z, located.loc, located.fromCache, c3)
  }

  /** Offline, with no tiles but a world map and a location in the cache, the
      widget still draws: the cached world map, at the cached location. */
  lemma OfflineShowsWorldMap(inp: Inputs, cache: Cache)
    requires ValidInputs(inp)
    requires inp.page.None? && inp.os.None?
    requires forall req :: inp.net(req) == Unreachable
    requires forall name :: name in cache ==> !EndsWith(name, TileSuffix)
    requires Usable(ReadLocation(cache))
    requires WorldMapFilename(inp.family) in cache && cache[WorldMapFilename(inp.family)].content.Picture?
    ensures var r := RunWidget(inp, cache);
      && r.Rendered? && r.shown.WorldMap? && r.fromCache
      && r.loc == ReadLocation(cache).value
      && r.shown.image == cache[WorldMapFilename(inp.family)].content
  {
    OfflinePrelude(inp, cache);
    var purged := Purge(cache, CacheDuration, inp.now).state;
    var l0 := NewLoader(inp.serverDraw);
    var l := Loader(l0.server, DetermineVersion(purged, inp.now, inp.page, l0.version).0);
    var e := Env(l, inp.net, LayoutsFor(inp), inp.now);
    OfflineLadder(inp, e, purged);
    var o := Ladder(e, purged, inp.initialZoom);
    var image := cache[WorldMapFilename(inp.family)].content;
    assert ReadWorldMap(o.cache, inp.family) == Some(image);
    var located := Located(ReadLocation(cache).value, true, purged);
    assert ShowMap(inp, e, located) ==
      Rendered(WorldMap(image), WorldMapOffset(inp.family, inp.proj(0)), o.zoom, located.loc, true, o.cache);
  }

  /** Offline, a run gets as far as the map: purging keeps the world map and
      the location, no version is learnt, and the location comes from the cache. */
  lemma OfflinePrelude(inp: Inputs, cache: Cache)
    requires ValidInputs(inp)
    requires inp.page.None? && inp.os.None?
    requires forall name :: name in cache ==> !EndsWith(name, TileSuffix)
    requires Usable(ReadLocation(cache))
    requires WorldMapFilename(inp.family) in cache && cache[WorldMapFilename(inp.family)].content.Picture?
    ensures Purge(cache, CacheDuration, inp.now).Proceed?
    ensures var purged := Purge(cache, CacheDuration, inp.now).state;
      && (forall name :: name in purged ==> !EndsWith(name, TileSuffix))
      && ReadWorldMap(purged, inp.family) == Some(cache[WorldMapFilename(inp.family)].content)
      && var l0 := NewLoader(inp.serverDraw);
         var l := Loader(l0.server, DetermineVersion(purged, inp.now, inp.page, l0.version).0);
         RunWidget(inp, cache) ==
           ShowMap(inp, Env(l, inp.net, LayoutsFor(inp), inp.now), Located(ReadLocation(cache).value, true, purged))
  {
    var purged := Purge(cache, CacheDuration, inp.now).state;
    PurgeKeepsAuxiliary(cache, CacheDuration, inp.now, inp.family);
    AuxiliaryFilesAreNotTiles(inp.family);
    var l0 := NewLoader(inp.serverDraw);
    var l := Loader(l0.server, DetermineVersion(purged, inp.now, inp.page, l0.version).0);
    assert DetermineVersion(purged, inp.now, inp.page, l0.version).1 == purged;
    assert PreloadWorldMap(l, purged, inp.net, inp.family, inp.now) == Proceed(purged);
    assert ResolveLocation(inp.os, purged, inp.now) == Ok(Located(ReadLocation(cache).value, true, purged));
  }

  /** Offline with no tile cached, the ladder finds no imagery and leaves every
      non-tile file where it was. */
  lemma OfflineLadder(inp: Inputs, e: Env, cache: Cache)
    requires ValidInputs(inp) && e.layoutAt == LayoutsFor(inp) && e.net == inp.net
    requires forall req :: inp.net(req) == Unreachable
    requires forall name :: name in cache ==> !EndsWith(name, TileSuffix)
    ensures Ladder(e, cache, inp.initialZoom).NoImagery?
    ensures ReadWorldMap(Ladder(e, cache, inp.initialZoom).cache, inp.family) == ReadWorldMap(cache, inp.family)
  {
    forall z ensures !GridAvailable(e, cache, z)
    {
      var t := e.layoutAt(z).tiles[0];
      assert !CachedTile(cache, e.loader, t);
      FirstTileMissing(e, cache, z);
    }
    LadderSpec(e, cache, inp.initialZoom);
    LadderKeepsOtherFiles(e, cache, inp.initialZoom);
    AuxiliaryFilesAreNotTiles(inp.family);
  }
}
