/** Position records, log rows and the runtime conversions the tracker relies on. */
module Records {
  import opened Wrappers

  /** One observed position: `ts` is the local time formatted to the second, `lat` is
      always present (the poller checks it), `lon` is whatever the snapshot held, possibly null. */
  datatype Coord = Coord(ts: string, lat: real, lon: Option<real>)

  /** One CSV row, already split into fields. */
  type Row = seq<string>

  /** The conversions the tracker takes from the Python runtime, as opaque functions:
      `render` is how the CSV writer prints a float, `parse` is `float(text)` (None when it
      raises ValueError), and `localTime` turns the snapshot's millisecond time stamp into the
      `%Y-%m-%d %H:%M:%S` string (None when `fromtimestamp` raises). */
  datatype Runtime = Runtime(
    render: real -> string,
    parse: string -> Option<real>,
    localTime: int -> Option<string>)

  /** The parser reads back what the renderer printed for the number `x`. */
  predicate ReadsBackNumber(x: real, rt: Runtime) {
    rt.parse(rt.render(x)) == Some(x)
  }

  /** Every number stored in `h` reads back from its printed form (true of Python's
      float printing for every finite float). */
  predicate ReadsBack(h: seq<Coord>, rt: Runtime) {
    forall i | 0 <= i < |h| ::
      ReadsBackNumber(h[i].lat, rt) && (h[i].lon.Some? ==> ReadsBackNumber(h[i].lon.value, rt))
  }

  /** The CSV field for an optional number: the writer prints `None` as the empty field. */
  function Cell(v: Option<real>, rt: Runtime): (r: string)
    ensures v.None? ==> r == ""
    ensures v.Some? && ReadsBackNumber(v.value, rt) ==> rt.parse(r) == v
  {
    match v
    case None => ""
    case Some(x) => rt.render(x)
  }

  /** The row the live server writes for an accepted record. */
  function LogRow(c: Coord, rt: Runtime): (r: Row)
    ensures |r| == 3 && r[0] == c.ts
    ensures ReadsBackNumber(c.lat, rt) ==> rt.parse(r[1]) == Some(c.lat)
    ensures c.lon.Some? && ReadsBackNumber(c.lon.value, rt) ==> rt.parse(r[2]) == c.lon
    ensures c.lon.None? ==> r[2] == ""
  {
    [c.ts, rt.render(c.lat), Cell(c.lon, rt)]
  }

  /** The rows of a history, one per record, in order. */
  function LogRows(h: seq<Coord>, rt: Runtime): seq<Row> {
    seq(|h|, i requires 0 <= i < |h| => LogRow(h[i], rt))
  }

  /** Header of the live server's log. */
  const ServerHeader: Row := ["timestamp", "latitude", "longitude"]

  /** Header of the log written in `track` mode. */
  const TrackHeader: Row := ["timestamp", "latitude", "longitude", "address"]

  /** Every record has a longitude (a record from a reloaded log always has). */
  predicate AllLocated(h: seq<Coord>) {
    forall i | 0 <= i < |h| :: h[i].lon.Some?
  }

  /** Index of the first record without longitude, or |h|. */
  function FirstMissingLon(h: seq<Coord>): (k: nat)
    ensures k <= |h|
    ensures forall i | 0 <= i < k :: h[i].lon.Some?
    ensures k < |h| ==> h[k].lon.None?
  {
    if h == [] then 0
    else if h[0].lon.None? then 0
    else 1 + FirstMissingLon(h[1..])
  }

  lemma LogRowsAppend(h: seq<Coord>, c: Coord, rt: Runtime)
    ensures LogRows(h + [c], rt) == LogRows(h, rt) + [LogRow(c, rt)]
  {
  }
}
