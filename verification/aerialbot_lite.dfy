/** The ærialbot lite widget: up to twelve attempts at a random satellite tile,
    each at a zoom level that coarsens as attempts run out, and a whole-world
    tile as the fallback. Random draws, the projection of the random point and
    the network are parameters. */
module AerialbotLite {
  import opened Wrappers

  /** The imagery version every request names. */
  const Version := 934
  /** Attempts before giving up on a random tile. */
  const Tries := 12

  type Image = seq<bv8>

  /** The random numbers drawn for one attempt, each in [0, 1): one picks the
      server, one the zoom level. */
  datatype Draw = Draw(server: real, zoom: real)

  predicate ValidDraw(d: Draw) {
    0.0 <= d.server < 1.0 && 0.0 <= d.zoom < 1.0
  }

  /** A tile request: server number, imagery version and tile coordinates. */
  datatype Request = Request(server: int, version: int, x: int, y: int, z: int)

  /** `Math.floor(Math.random() * 4)`: one of the four servers. */
  function Server(draw: real): (s: int)
    requires 0.0 <= draw < 1.0
    ensures 0 <= s < 4
  {
    (draw * 4.0).Floor
  }

  /** `Math.floor(4 + tries + Math.random() * 5)`, with the counter already decremented. */
  function Zoom(counter: int, draw: real): (z: int)
    requires 0.0 <= draw < 1.0
    ensures counter + 4 <= z <= counter + 8
  {
    (4.0 + counter as real + draw * 5.0).Floor
  }

  /** The request of the attempt run with the counter at `counter`; `tileAt`
      projects the attempt's random point at a zoom level to tile coordinates. */
  function RequestFor(counter: int, d: Draw, tileAt: (int, int) -> (int, int)): Request
    requires ValidDraw(d)
  {
    var z := Zoom(counter, d.zoom);
    var (x, y) := tileAt(counter, z);
    Request(Server(d.server), Version, x, y, z)
  }

  /** The counter after the loop, given how many attempts ran and whether the last succeeded. */
  function TriesAfter(attempts: nat, succeeded: bool): int {
    if succeeded then Tries - attempts else -1
  }

  /** The retry loop `while (tries-- > 0)`: the test reads the counter before
      decrementing it, so the body sees 11, 10, ..., 0, and a loop that runs
      out leaves the counter at -1. It stops at the first tile that loads. */
  method RetryLoop(draw: int -> Draw, tileAt: (int, int) -> (int, int), fetch: Request -> Option<Image>)
      returns (tries: int, tile: Option<Image>, requests: seq<Request>)
    requires forall t :: 0 <= t < Tries ==> ValidDraw(draw(t))
    ensures 1 <= |requests| <= Tries
    ensures forall a :: 0 <= a < |requests| ==> requests[a] == RequestFor(Tries - 1 - a, draw(Tries - 1 - a), tileAt)
    ensures forall a :: 0 <= a < |requests| - 1 ==> fetch(requests[a]).None?
    ensures tile == fetch(requests[|requests| - 1])
    ensures tile.None? ==> |requests| == Tries
    ensures tries == TriesAfter(|requests|, tile.Some?)
  {
    tries := Tries;
    tile := None;
    requests := [];
    while true
      invariant -1 <= tries <= Tries && |requests| <= Tries
      invariant tile.None? ==> |requests| == Tries - tries && tries >= 0
      invariant tile.Some? ==> tries == Tries - |requests| && |requests| >= 1
      invariant forall a :: 0 <= a < |requests| ==> requests[a] == RequestFor(Tries - 1 - a, draw(Tries - 1 - a), tileAt)
      invariant forall a :: 0 <= a < |requests| - (if tile.Some? then 1 else 0) ==> fetch(requests[a]).None?
      invariant tile.Some? ==> tile == fetch(requests[|requests| - 1])
      decreases tries + 1, if tile.None? then 1 else 0
    {
      if tile.Some? {
        break;
      }
      var more := tries > 0;
      tries := tries - 1;
      if !more {
        break;
      }
      var req := RequestFor(tries, draw(tries), tileAt);
      requests := requests + [req];
      tile := fetch(req);
    }
  }

  /** The fallback condition as the widget writes it: the counter is 0 after the loop. */
  predicate FallbackAsWritten(tries: int) {
    tries == 0
  }

  /** The fallback the comment describes: every attempt failed, which leaves the counter at -1. */
  predicate FallbackIntended(tries: int) {
    tries < 0
  }

  /** As written, the whole-world fallback fires exactly when the twelfth and
      last attempt succeeded, replacing the tile it just loaded, and never when
      all twelve failed. */
  lemma FallbackAsWrittenMisfires(attempts: nat, succeeded: bool)
    requires 1 <= attempts <= Tries && (!succeeded ==> attempts == Tries)
    ensures FallbackAsWritten(TriesAfter(attempts, succeeded)) <==> succeeded && attempts == Tries
    ensures !succeeded ==> !FallbackAsWritten(TriesAfter(attempts, succeeded))
  {
  }

  /** The corrected condition fires exactly when no attempt loaded a tile. */
  lemma FallbackIntendedFires(attempts: nat, succeeded: bool)
    requires 1 <= attempts <= Tries && (!succeeded ==> attempts == Tries)
    ensures FallbackIntended(TriesAfter(attempts, succeeded)) <==> !succeeded
  {
  }

  /** The whole-world tile, from server 2. */
  const WorldRequest := Request(2, Version, 0, 0, 0)

  /** What the widget ends up with: the background tile (none leaves the widget
      blank) and whether it is the whole-world tile; `Aborted` when the
      whole-world request fails, which throws out of the script. */
  datatype Outcome = Shown(tile: Option<Image>, world: bool) | Aborted

  /** The widget as written: the fallback test is `tries == 0`. */
  method WidgetAsWritten(draw: int -> Draw, tileAt: (int, int) -> (int, int), fetch: Request -> Option<Image>)
      returns (o: Outcome, requests: seq<Request>)
    requires forall t :: 0 <= t < Tries ==> ValidDraw(draw(t))
    ensures |requests| >= 1
    ensures fetch(requests[|requests| - 1]).None? ==> o == Shown(None, false)
    ensures |requests| < Tries ==> o == Shown(fetch(requests[|requests| - 1]), false)
    ensures |requests| == Tries && fetch(requests[Tries - 1]).Some? ==>
      o == (if fetch(WorldRequest).Some? then Shown(fetch(WorldRequest), true) else Aborted)
  {
    var tries, tile;
    tries, tile, requests := RetryLoop(draw, tileAt, fetch);
    if FallbackAsWritten(tries) {
      var world := fetch(WorldRequest);
      if world.None? {
        return Aborted, requests;
      }
      return Shown(world, true), requests;
    }
    o := Shown(tile, false);
  }

  /** The widget with the fallback the comment describes: the random tile when
      one loaded, else the whole world. */
  method Widget(draw: int -> Draw, tileAt: (int, int) -> (int, int), fetch: Request -> Option<Image>)
      returns (o: Outcome, requests: seq<Request>)
    requires forall t :: 0 <= t < Tries ==> ValidDraw(draw(t))
    ensures 1 <= |requests| <= Tries
    ensures fetch(requests[|requests| - 1]).Some? ==> o == Shown(fetch(requests[|requests| - 1]), false)
    ensures fetch(requests[|requests| - 1]).None? ==>
      |requests| == Tries &&
      o == (if fetch(WorldRequest).Some? then Shown(fetch(WorldRequest), true) else Aborted)
    ensures o.Shown? ==> o.tile.Some?
  {
    var tries, tile;
    tries, tile, requests := RetryLoop(draw, tileAt, fetch);
    if FallbackIntended(tries) {
      var world := fetch(WorldRequest);
      if world.None? {
        return Aborted, requests;
      }
      return Shown(world, true), requests;
    }
    o := Shown(tile, false);
  }

  /** The zoom level of the attempt with counter `t` lies in [4 + t, 8 + t], so
      the first attempt (counter 11) asks for zoom 15 to 19, and every level in
      that range can be drawn. */
  lemma FirstAttemptZoom(r: real)
    requires 0.0 <= r < 1.0
    ensures 15 <= Zoom(Tries - 1, r) <= 19
    ensures Zoom(Tries - 1, 0.0) == 15 && Zoom(Tries - 1, 0.8) == 19
  {
  }
}
