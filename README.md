# Find My tracker: history store, poll step, log reload and address text

This project models the stateful core of `tracker.py`, a tool that samples Apple's
Find My item cache for one named AirTag. It covers:

- **the live server's history store** (`serve`). The store is an in-memory list of
  `{ts, lat, lon}` records plus a CSV log that mirrors it. A record is taken only when
  its time stamp differs from the last record's. Every record taken becomes one
  `[ts, lat, lon]` log row.
- **one poll iteration**. From a snapshot of device items, it takes the first item
  whose name is exactly the tracked name. It needs a location with a non-null latitude.
  It then builds a record and offers it to the store.
- **the `track` loop**. The same extraction writes every located sample as a
  `[ts, lat, lon, address]` row, with no dedup. A new log file gets a four-column header.
- **startup**. An existing server log is read back: the first row is skipped, rows
  with at least three fields are loaded in order, and the first row whose number does
  not parse ends the reload. A missing log is created with a three-column header.
- **the address text**: `"{street}, {locality}, {state} {country}".strip(', ')`.

Modules: `Wrappers` (Option), `Records` (records, rows, the runtime conversions),
`Addresses`, `Snapshot` (items, lookup, location gate), `Reload`, `History` (the store, the
server loop and the `Tracker` class), and `Track` (the `track` loop and the `TrackLogger` class).

The two loops mutate state, so they are classes: `History.Tracker` holds the history and
the log, and `Track.TrackLogger` holds the log. Their methods are proved against pure
functions of the old state: `Offer`, `ServerStep` and `ServerRun`, or `TrackStep` and
`TrackRun`. The lemmas about those functions carry the run-level properties. Examples
are append-only growth, no adjacent duplicate time stamps, a log that mirrors the history,
and reloading the written log to get the history back.

Each append and each read runs under one lock in the source, so each is modelled as one
atomic step. The read API (`api_data`) is `Tracker.Snapshot`, which returns the history.

External behaviour is passed in through a `Runtime` value instead of being modelled:

- `render`: how the CSV writer prints a float.
- `parse`: `float(text)`, which gives None where Python raises `ValueError`.
- `localTime`: `datetime.fromtimestamp(ms / 1000).strftime('%Y-%m-%d %H:%M:%S')`, which
  gives None where it raises.

A snapshot is an `Option<seq<Item>>`, where None means the snapshot could not be read.
Latitudes and longitudes are `real`.

Behaviours of the code that a reader might not expect, each proved:

- The `try` wraps the whole `for` loop of the reload (tracker.py:285-291). A row whose
  numbers do not parse therefore ends the reload instead of being skipped
  (`Reload.ParseFailureStops`). Rows with fewer than three fields are skipped, and loading
  goes on after them (`Reload.ShortRowSkipped`).
- Reloading the server's own log gives back its history only when every record has a
  longitude. The poller checks only the latitude (tracker.py:121). A null longitude is
  stored, and the CSV writer writes it as an empty field. `float('')` then fails on reload,
  so the reload stops at that row and drops every later row. `Reload.LoadWrittenMissingLon`
  and `History.FreshRun` state this exactly.
- A reloaded log is not deduplicated (tracker.py:289). A history restored from a log that
  the `track` loop wrote can therefore hold neighbouring records with equal time stamps
  (`Reload.ReloadKeepsRepeats`). For that case `History.RestartedRun` claims only that the
  reloaded records stay first and that the log mirrors the new records.
- A null address part is formatted, not dropped: the f-string prints it as `None`
  (`Addresses.NullStreetPrinted`).
- A null `timeStamp` makes `None / 1000` raise, so that poll records nothing
  (`Snapshot.TimeStampOf`). A missing `timeStamp` reads as 0.
- A null `address` makes the `track` loop's `.get` raise, so that sample is not logged.
  The live server never reads the address, so it still takes the record
  (`Track.NullAddressSkipsTrackOnly`).

## Model

| member | source | states |
|---|---|---|
| `Addresses.Strip` | tracker.py:94 | the result is a slice of the input whose first and last characters are not `,` or space, and only commas and spaces were cut from either end |
| `Addresses.StripSeparators` | tracker.py:94 | a text made only of commas and spaces strips to the empty string |
| `Addresses.StripAt` | tracker.py:94 | cutting only commas and spaces from both ends, and stopping at a character that is neither on each side, gives the stripped result |
| `Addresses.StripUnique` | tracker.py:94 | any string with that property is the stripped result, so the property defines `.strip(', ')` exactly |
| `Addresses.PartText` | tracker.py:94 | a missing address part prints as the empty string, a null one as `None`, and a present one as itself |
| `Addresses.Joined` | tracker.py:66 | the f-string is the street, ", ", the locality, ", ", the state, " " and the country, in that order and with nothing else |
| `Addresses.FullAddress` | tracker.py:66 | the composed address is exactly the stripped f-string: a slice of it with no comma or space at either end, with only commas and spaces cut away |
| `Addresses.EmptyAddress` | tracker.py:94 | when all four parts are absent or empty, the address is the empty string |
| `Addresses.FullAddressUnstripped` | tracker.py:94 | when the street does not start with a separator and the country does not end with one, the address is the f-string unchanged |
| `Addresses.CountryOnly` | tracker.py:66 | when only the country is known, the address is just the country, with the separators in front of it removed |
| `Addresses.NullStreetPrinted` | tracker.py:94 | a null street is not dropped: the address begins with `None` |
| `Snapshot.FindFirst` | tracker.py:118 | returns the index of an item named exactly `name` with no earlier such item, or None exactly when no item has that name |
| `Snapshot.FirstMatch` | tracker.py:118 | gives an item named exactly `name` with no earlier such item, or None exactly when no item has that name |
| `Snapshot.TimeStampOf` | tracker.py:122 | a missing time stamp reads as 0, a null one makes the division raise, and a present one is used as it is |
| `Snapshot.AddressOf` | tracker.py:93 | a missing address reads as the empty address, a null one makes the following lookup raise, and a present one is used as it is |
| `Snapshot.Extract` | tracker.py:114-126 | the iteration is skipped as no-snapshot exactly when the snapshot is None or empty, as not-found exactly when no item has the name, as no-location exactly when the first match has no location or latitude (`HasFix`, tracker.py:121), and as bad-timestamp exactly when the first match's time stamp is null or cannot be formatted (`LocalTimeOf`, tracker.py:122-123); a found sample is the first match, and its record carries the formatted time, latitude and longitude of that match's location |
| `Snapshot.FirstMatchDecides` | tracker.py:118-121 | when the first item with the name has no fix, the iteration records nothing, even if a later item with the same name has one |
| `Reload.LoadData` | tracker.py:287-289 | the reload yields at most one record per row, and every record has a longitude |
| `Reload.ReloadLog` | tracker.py:283-291 | the first row is skipped as the header; after it, the result is exactly the reference: every row with at least three fields becomes `{ts=row[0], lat=row[1], lon=row[2]}`, in file order, up to the first row whose `float` fails (`Breaks`, `FirstBreak`) |
| `Reload.LoadNoBreak` | tracker.py:287-289 | when no row fails to parse, loading gives each row with at least three fields as its record, in file order, and nothing else |
| `Reload.LoadMatchesReference` | tracker.py:285-291 | loading any rows gives the reference applied to the rows before the first row that fails to parse |
| `Reload.LoadConcat` | tracker.py:285-291 | loading rows a then b gives load(a) + load(b) when no row of a fails to parse, and load(a) alone otherwise |
| `Reload.ParseFailureStops` | tracker.py:285-291 | a row whose latitude or longitude fails to parse ends the reload: the rows before it are kept and no row after it is read |
| `Reload.ShortRowSkipped` | tracker.py:288 | a row with fewer than three fields is skipped and loading goes on with the next row |
| `Reload.LoadWritten` | tracker.py:132-134 | when every record has a longitude and each stored number parses back from its printed form, loading the server's rows of a history gives that history |
| `Reload.LoadWrittenMissingLon` | tracker.py:124-134 | when each stored number parses back and the empty field does not parse, loading the written rows gives exactly the records before the first one without a longitude |
| `Reload.ReloadTwoRows` | tracker.py:283-289 | a log with a header and two good rows reloads both records in file order |
| `Reload.ReloadKeepsRepeats` | tracker.py:287-289 | two rows with the same time stamp both reload, so the restored history has neighbours with equal time stamps |
| `History.Offer` | tracker.py:128-134 | the history and the log only grow at the end; the history grows by one exactly when the store is empty or the last time stamp differs (`Accepts`, tracker.py:129), and is otherwise unchanged; the log grows by as many rows as the history grows by records; a taken record goes last and its row is `[ts, lat, lon]`; afterwards the last record always has the offered time stamp |
| `Records.Cell` | tracker.py:134 | a null number is written as the empty field, and a present number as text that parses back to it when the number reads back |
| `Records.LogRow` | tracker.py:134 | the server's row has three fields: the time stamp, then text that parses back to the latitude and to the longitude, or an empty field for a null longitude |
| `History.ServerStep` | tracker.py:114-135 | one poll changes nothing when the snapshot is None or empty, when no item has the name, when the first match has no location or latitude, or when its time stamp fails; when a sample is found, it offers that sample's record to the store |
| `History.ServerRun` | tracker.py:112-137 | during any run of polls the old history and the old log stay prefixes, and the history grows by at most one record per poll |
| `History.RunConcat` | tracker.py:112-137 | a run over two lists of snapshots is the first run continued by the second, so with `ServerRun` the history and log never shrink between any two points of a run |
| `History.OfferNoAdjacentDup` | tracker.py:129-130 | if no two neighbouring records share a time stamp before an offer, none do after it |
| `History.OfferMirrors` | tracker.py:129-134 | an offer keeps the log equal to its old part followed by one row for each record taken since |
| `History.RunNoAdjacentDup` | tracker.py:112-137 | during any run of polls the no-adjacent-duplicate invariant holds if it held at the start |
| `History.RunMirrors` | tracker.py:112-137 | during any run of polls the log is its starting rows followed by one `[ts, lat, lon]` row per record taken, in order |
| `History.FreshRun` | tracker.py:293-296 | a server started with no log: after any polls, no neighbouring records share a time stamp and the log is the header followed by one row per record; when the stored numbers parse back, reloading the log gives the records before the first missing longitude (all records when none is missing) |
| `History.RestartedRun` | tracker.py:281-292 | a server started on an existing log: the reloaded records stay at the front of the history, and the old file stays ahead of the new rows |
| `History.NonAdjacentRepeat` | tracker.py:129 | time stamps t1, t2, t1 offered to an empty store give three records: only the last record is compared |
| `History.RepeatedTimestamp` | tracker.py:118-134 | polls whose time stamps read T1, T1, T2 give exactly the T1 and T2 samples' records, and a log of the header followed by those two records' rows |
| `History.NeverFound` | tracker.py:118-119 | polls that never find the item leave a fresh store with an empty history and only the header |
| `History.Tracker.Start` | tracker.py:281-296 | with no file the store is empty and the log is the three-column header; with a file the log is that file and the history is its reload |
| `History.Tracker.Restore` | tracker.py:285-291 | the reload loop appends exactly the loaded records and leaves the log alone; it reports no stop exactly when no row fails, and otherwise the index of the first failing row |
| `History.Tracker.Append` | tracker.py:128-134 | returns inserted exactly when the history is empty or the last time stamp differs; the new history and log are the result of `Offer` |
| `History.Tracker.Poll` | tracker.py:113-136 | returns the iteration's extraction outcome; the new history and log are the result of `ServerStep` |
| `History.Tracker.Serve` | tracker.py:111-137 | the poll loop over a list of snapshots leaves the history and log equal to `ServerRun` |
| `History.Tracker.Snapshot` | tracker.py:244-247 | the read API returns the whole current history, in order, and changes nothing |
| `Track.TrackRow` | tracker.py:89-97 | the `track` row has four fields: the server's three-field row for the record, then the item's full address |
| `Track.OpenLog` | tracker.py:74-77 | an existing log is kept as it is; a new one starts with the four-column header |
| `Track.TrackStep` | tracker.py:80-109 | one `track` iteration adds exactly one row, the sample's row with its address, at the end, when a sample is found and its address can be read, and no row otherwise |
| `Track.TrackRun` | tracker.py:78-109 | during any `track` run the old log stays a prefix, and the log grows by at most one row per poll |
| `Track.TrackRunRows` | tracker.py:78-109 | during any `track` run the log grows at the end by exactly one four-column row per logged sample, with no dedup |
| `Track.NewTrackLog` | tracker.py:74-97 | a log created by `track` is the four-column header followed by four-column rows only |
| `Track.RepeatsLogged` | tracker.py:85-97 | a logged snapshot polled twice is logged twice by `track`, while the live server takes it at most once |
| `Track.NullAddressSkipsTrackOnly` | tracker.py:93-97 | a found sample whose address is null is not logged by `track`, while the live server takes its record |
| `Track.TrackLogger.Open` | tracker.py:74-77 | the logger's log is the existing file, or the header when the file is absent |
| `Track.TrackLogger.Poll` | tracker.py:79-109 | returns the extraction outcome and whether a row was logged; the new log is the result of `TrackStep` |
| `Track.TrackLogger.Track` | tracker.py:78-109 | the `track` loop over a list of snapshots leaves the log equal to `TrackRun` |

## Left out

- `find_database_file` (tracker.py:16-28): it probes fixed platform paths on the file
  system. A missing source stops the program before any loop starts.
- `get_data_snapshot` (tracker.py:30-49): it runs `plutil`, writes a temporary file and
  decodes JSON. It is replaced by the snapshot argument, with None for every failure.
- The Flask routes, `HTML_TEMPLATE` and the browser script (tracker.py:139-247). These are
  presentation only. `api_data` is `Tracker.Snapshot`, and its JSON encoding is not modelled.
- Threads, `data_lock`, `time.sleep` and the endless `while True` loops. Each append and
  read is one atomic step, and a loop is modelled as a finite list of iterations.
  `KeyboardInterrupt` ends the `track` loop and is not modelled.
- Time formatting, float printing and `float()` parsing. These are the `Runtime` functions: `localTime`, `render` and `parse`.
  The float division of the millisecond stamp by 1000 is folded into `localTime`.
- CSV quoting and splitting: a file is the sequence of its already-split rows.
- `dump_all_items` (tracker.py:51-68). It is a one-shot bulk write to a file. Only its
  address formatting (line 66) is modelled.
- `main`'s argument parsing (tracker.py:249-279), including the default log file name.
- JSON values of unexpected types. Latitudes and longitudes are modelled as numbers or
  null, and address parts as strings, null or missing. In the source, a latitude of another
  type is stored and written as it is, and a non-string address part is formatted with
  `str`. Neither is modelled.
- Log write failures. The model assumes every append to the log file succeeds. In the
  source, a write that raises after the in-memory append would leave the history one
  record ahead of the log.
