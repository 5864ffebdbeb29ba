/** The live server's history store: the in-memory list of records (`tracked_coordinates`)
    and the log file that mirrors it. Each poll offers at most one record; a record is taken
    only when its time stamp differs from the last record's, and every record taken is also
    written to the log as one `[ts, lat, lon]` row. Each append and each read happens under
    one lock, so each is modelled as a single atomic step. */
module History {
  import opened Wrappers
  import opened Records
  import opened Snapshot
  import opened Reload

  /** The state shared by the poller and the readers: the history and the log file's rows. */
  datatype Store = Store(history: seq<Coord>, log: seq<Row>)

  /** The store of a server started without a log file: no records, a header. */
  const Fresh := Store([], [ServerHeader])

  /** The dedup rule: a record is taken unless the history is non-empty and its last
      record has the same time stamp. */
  predicate Accepts(h: seq<Coord>, ts: string) {
    h == [] || h[|h| - 1].ts != ts
  }

  /** No two neighbouring records share a time stamp. */
  predicate NoAdjacentDup(h: seq<Coord>) {
    forall i | 0 < i < |h| :: h[i - 1].ts != h[i].ts
  }

  /** Everything taken into `s` since `base` is mirrored, row for row, at the end of the log. */
  predicate Mirrors(s: Store, base: Store, rt: Runtime) {
    base.history <= s.history &&
    s.log == base.log + LogRows(s.history[|base.history|..], rt)
  }

  /** Offering one record to the store (the locked block of the poll loop). */
  function Offer(s: Store, c: Coord, rt: Runtime): (r: Store)
    ensures s.history <= r.history && s.log <= r.log
    ensures |r.history| == |s.history| + (if Accepts(s.history, c.ts) then 1 else 0)
    ensures |r.log| - |s.log| == |r.history| - |s.history|
    ensures r.history != [] && r.history[|r.history| - 1].ts == c.ts
    ensures !Accepts(s.history, c.ts) ==> r == s
    ensures Accepts(s.history, c.ts) ==>
      r.history[|s.history|] == c && r.log[|s.log|] == LogRow(c, rt)
  {
    if Accepts(s.history, c.ts) then Store(s.history + [c], s.log + [LogRow(c, rt)]) else s
  }

  /** One iteration of the live server's poll loop. */
  function ServerStep(s: Store, snapshot: Option<seq<Item>>, name: string, rt: Runtime): (r: Store)
    ensures s.history <= r.history && s.log <= r.log
    ensures |r.history| <= |s.history| + 1
    ensures snapshot.None? || snapshot.value == [] ==> r == s
    ensures snapshot.Some? && (forall j | 0 <= j < |snapshot.value| :: snapshot.value[j].name != Some(name)) ==> r == s
    ensures (snapshot.Some? && FirstMatch(snapshot.value, name).Some? &&
             !HasFix(FirstMatch(snapshot.value, name).value)) ==> r == s
    ensures Extract(snapshot, name, rt).Skipped? ==> r == s
    ensures Extract(snapshot, name, rt).Found? ==> r == Offer(s, Extract(snapshot, name, rt).sighting.coord, rt)
  {
    match Extract(snapshot, name, rt)
    case Skipped(_) => s
    case Found(f) => Offer(s, f.coord, rt)
  }

  /** The poll loop run over a finite list of snapshots, one iteration per snapshot. */
  function ServerRun(s: Store, snapshots: seq<Option<seq<Item>>>, name: string, rt: Runtime): (r: Store)
    ensures s.history <= r.history && s.log <= r.log
    ensures |r.history| <= |s.history| + |snapshots|
  {
    if snapshots == [] then s
    else ServerStep(ServerRun(s, snapshots[..|snapshots| - 1], name, rt), snapshots[|snapshots| - 1], name, rt)
  }

  /** A run over two lists of snapshots is the run over the first list continued by the
      run over the second, so every point of a run extends every earlier point. */
  lemma {:induction false} RunConcat(s: Store, a: seq<Option<seq<Item>>>, b: seq<Option<seq<Item>>>,
                                     name: string, rt: Runtime)
    ensures ServerRun(s, a + b, name, rt) == ServerRun(ServerRun(s, a, name, rt), b, name, rt)
  {
    if b == [] {
      assert a + b == a;
    } else {
      var b' := b[..|b| - 1];
      assert (a + b)[..|a + b| - 1] == a + b';
      assert (a + b)[|a + b| - 1] == b[|b| - 1];
      RunConcat(s, a, b', name, rt);
    }
  }

  /** Offering keeps the dedup invariant. */
  lemma OfferNoAdjacentDup(s: Store, c: Coord, rt: Runtime)
    requires NoAdjacentDup(s.history)
    ensures NoAdjacentDup(Offer(s, c, rt).history)
  {
  }

  /** Offering keeps the log in step with the history. */
  lemma OfferMirrors(s: Store, base: Store, c: Coord, rt: Runtime)
    requires Mirrors(s, base, rt)
    ensures Mirrors(Offer(s, c, rt), base, rt)
  {
    if Accepts(s.history, c.ts) {
      var h := s.history + [c];
      assert h[|base.history|..] == s.history[|base.history|..] + [c];
      LogRowsAppend(s.history[|base.history|..], c, rt);
    }
  }

  /** Over any run, the dedup invariant holds if it held at the start. */
  lemma {:induction false} RunNoAdjacentDup(s: Store, snapshots: seq<Option<seq<Item>>>, name: string, rt: Runtime)
    requires NoAdjacentDup(s.history)
    ensures NoAdjacentDup(ServerRun(s, snapshots, name, rt).history)
  {
    if snapshots != [] {
      var p := ServerRun(s, snapshots[..|snapshots| - 1], name, rt);
      RunNoAdjacentDup(s, snapshots[..|snapshots| - 1], name, rt);
      match Extract(snapshots[|snapshots| - 1], name, rt)
      case Skipped(_) =>
      case Found(f) => OfferNoAdjacentDup(p, f.coord, rt);
    }
  }

  /** Over any run, every record taken is mirrored by one row at the end of the log. */
  lemma {:induction false} RunMirrors(s: Store, snapshots: seq<Option<seq<Item>>>, name: string, rt: Runtime)
    ensures Mirrors(ServerRun(s, snapshots, name, rt), s, rt)
  {
    if snapshots == [] {
      assert s.history[|s.history|..] == [];
    } else {
      var p := ServerRun(s, snapshots[..|snapshots| - 1], name, rt);
      RunMirrors(s, snapshots[..|snapshots| - 1], name, rt);
      match Extract(snapshots[|snapshots| - 1], name, rt)
      case Skipped(_) =>
      case Found(f) => OfferMirrors(p, s, f.coord, rt);
    }
  }

  /** A server started without a log: whatever it polls, no two neighbouring records
      share a time stamp and the log is the header followed by one row per record.
      When the stored numbers read back from their printed form, reading that log at the
      next start gives the records before the first one without longitude (all of them
      when every record has one). */
  lemma FreshRun(snapshots: seq<Option<seq<Item>>>, name: string, rt: Runtime)
    ensures var r := ServerRun(Fresh, snapshots, name, rt);
      NoAdjacentDup(r.history) &&
      r.log == [ServerHeader] + LogRows(r.history, rt)
    ensures var r := ServerRun(Fresh, snapshots, name, rt);
      ReadsBack(r.history, rt) && rt.parse("").None? ==>
      ReloadLog(r.log, rt) == r.history[..FirstMissingLon(r.history)]
    ensures var r := ServerRun(Fresh, snapshots, name, rt);
      ReadsBack(r.history, rt) && AllLocated(r.history) ==> ReloadLog(r.log, rt) == r.history
  {
    var r := ServerRun(Fresh, snapshots, name, rt);
    RunNoAdjacentDup(Fresh, snapshots, name, rt);
    RunMirrors(Fresh, snapshots, name, rt);
    assert r.history[0..] == r.history;
    assert r.log[1..] == LogRows(r.history, rt);
    if ReadsBack(r.history, rt) && rt.parse("").None? {
      LoadWrittenMissingLon(r.history, rt);
    }
    if ReadsBack(r.history, rt) && AllLocated(r.history) {
      LoadWritten(r.history, rt);
    }
  }

  /** A server started on an existing log: the reloaded records come first in the history
      and the log keeps the whole old file ahead of the rows of the new records. */
  lemma RestartedRun(file: seq<Row>, snapshots: seq<Option<seq<Item>>>, name: string, rt: Runtime)
    ensures var r := ServerRun(Store(ReloadLog(file, rt), file), snapshots, name, rt);
      ReloadLog(file, rt) <= r.history &&
      r.log == file + LogRows(r.history[|ReloadLog(file, rt)|..], rt)
  {
    RunMirrors(Store(ReloadLog(file, rt), file), snapshots, name, rt);
  }

  /** Dedup looks only at the last record: time stamps t1, t2, t1 give three records. */
  lemma NonAdjacentRepeat(t1: string, t2: string, a: Coord, b: Coord, c: Coord, rt: Runtime)
    requires t1 != t2 && a.ts == t1 && b.ts == t2 && c.ts == t1
    ensures Offer(Offer(Offer(Fresh, a, rt), b, rt), c, rt).history == [a, b, c]
  {
  }

  /** The tracked item's snapshot with the given location. */
  function Seen(name: string, loc: Location): Option<seq<Item>> {
    Some([Item(Some(name), Some(loc), Absent)])
  }

  /** Three polls whose time stamps read T1, T1, T2 give two records and two log rows
      after the header. */
  lemma RepeatedTimestamp(name: string, l1: Location, l2: Location, l3: Location, rt: Runtime)
    requires l1.latitude.Some? && l2.latitude.Some? && l3.latitude.Some?
    requires LocalTimeOf(l1, rt).Some? && LocalTimeOf(l2, rt).Some? && LocalTimeOf(l3, rt).Some?
    requires LocalTimeOf(l1, rt) == LocalTimeOf(l2, rt) != LocalTimeOf(l3, rt)
    ensures var r := ServerRun(Fresh, [Seen(name, l1), Seen(name, l2), Seen(name, l3)], name, rt);
      var c1 := Coord(LocalTimeOf(l1, rt).value, l1.latitude.value, l1.longitude);
      var c3 := Coord(LocalTimeOf(l3, rt).value, l3.latitude.value, l3.longitude);
      r.history == [c1, c3] && r.log == [ServerHeader, LogRow(c1, rt), LogRow(c3, rt)]
  {
    var snaps := [Seen(name, l1), Seen(name, l2), Seen(name, l3)];
    assert snaps[..2] == [Seen(name, l1), Seen(name, l2)];
    assert snaps[..2][..1] == snaps[..1] == [Seen(name, l1)];
    assert snaps[..2][..1][..0] == [];
    var c1 := SeenRecord(name, l1, rt);
    var c2 := SeenRecord(name, l2, rt);
    var c3 := SeenRecord(name, l3, rt);
    var s1 := ServerRun(Fresh, snaps[..1], name, rt);
    assert ServerRun(Fresh, snaps[..1][..0], name, rt) == Fresh;
    assert s1 == ServerStep(Fresh, Seen(name, l1), name, rt) == Offer(Fresh, c1, rt);
    var s2 := ServerRun(Fresh, snaps[..2], name, rt);
    assert s2 == ServerStep(s1, Seen(name, l2), name, rt) == Offer(s1, c2, rt);
    assert s2 == s1;
    assert ServerRun(Fresh, snaps, name, rt) == Offer(s2, c3, rt);
  }

  /** A snapshot holding only the tracked item with a fix yields that fix. */
  lemma SeenRecord(name: string, loc: Location, rt: Runtime) returns (c: Coord)
    requires loc.latitude.Some? && LocalTimeOf(loc, rt).Some?
    ensures c == Coord(LocalTimeOf(loc, rt).value, loc.latitude.value, loc.longitude)
    ensures Extract(Seen(name, loc), name, rt) == Found(Sighting(Item(Some(name), Some(loc), Absent), c))
  {
    c := Coord(LocalTimeOf(loc, rt).value, loc.latitude.value, loc.longitude);
    assert FindFirst(Seen(name, loc).value, name) == Some(0);
  }

  /** Polls that never find the tracked item leave the fresh store as it was. */
  lemma NeverFound(snapshots: seq<Option<seq<Item>>>, name: string, rt: Runtime)
    requires forall n | 0 <= n < |snapshots| :: Extract(snapshots[n], name, rt) == Skipped(NotFound)
    ensures ServerRun(Fresh, snapshots, name, rt) == Fresh
  {
    if snapshots != [] {
      NeverFound(snapshots[..|snapshots| - 1], name, rt);
    }
  }

  /** The live server's state behind the lock. */
  class Tracker {
    var history: seq<Coord>
    var log: seq<Row>
    const rt: Runtime

    function State(): Store
      reads this
    {
      Store(history, log)
    }

    /** Startup: reload the log when the file exists, else create it with its header. */
    constructor Start(file: Option<seq<Row>>, rt: Runtime)
      ensures this.rt == rt
      ensures file.None? ==> State() == Fresh
      ensures file.Some? ==> State() == Store(ReloadLog(file.value, rt), file.value)
    {
      this.rt := rt;
      history := [];
      log := if file.Some? then file.value else [ServerHeader];
      new;
      if file.Some? && file.value != [] {
        var _ := Restore(file.value[1..]);
      }
    }

    /** The reload loop over the data rows; a row that fails to parse ends it, and its
        index is returned for the warning. */
    method Restore(rows: seq<Row>) returns (stoppedAt: Option<nat>)
      modifies this
      ensures log == old(log)
      ensures history == old(history) + LoadData(rows, rt)
      ensures stoppedAt.None? <==> NoBreak(rows, rt)
      ensures stoppedAt.Some? ==> stoppedAt.value < |rows| && Breaks(rows[stoppedAt.value], rt) &&
                                  NoBreak(rows[..stoppedAt.value], rt)
    {
      var i := 0;
      while i < |rows|
        invariant 0 <= i <= |rows|
        invariant log == old(log)
        invariant history + LoadData(rows[i..], rt) == old(history) + LoadData(rows, rt)
        invariant NoBreak(rows[..i], rt)
      {
        var row := rows[i];
        assert rows[i..] == [row] + rows[i + 1..];
        assert rows[..i + 1] == rows[..i] + [row];
        if |row| >= 3 {
          var lat := rt.parse(row[1]);
          var lon := rt.parse(row[2]);
          if lat.None? || lon.None? {
            stoppedAt := Some(i);
            return;
          }
          history := history + [Coord(row[0], lat.value, Some(lon.value))];
        }
        i := i + 1;
      }
      assert rows[..i] == rows;
      stoppedAt := None;
    }

    /** The locked block: take the record unless it repeats the last time stamp, and
        write its row to the log when taken. */
    method Append(c: Coord) returns (inserted: bool)
      modifies this
      ensures inserted <==> Accepts(old(history), c.ts)
      ensures State() == Offer(old(State()), c, rt)
    {
      inserted := history == [] || history[|history| - 1].ts != c.ts;
      if inserted {
        history := history + [c];
        log := log + [LogRow(c, rt)];
      }
    }

    /** One iteration of the poll loop. */
    method Poll(snapshot: Option<seq<Item>>, name: string) returns (outcome: Extracted)
      modifies this
      ensures outcome == Extract(snapshot, name, rt)
      ensures State() == ServerStep(old(State()), snapshot, name, rt)
    {
      outcome := Extract(snapshot, name, rt);
      if outcome.Found? {
        var _ := Append(outcome.sighting.coord);
      }
    }

    /** The poll loop, one iteration per snapshot. */
    method Serve(snapshots: seq<Option<seq<Item>>>, name: string)
      modifies this
      ensures State() == ServerRun(old(State()), snapshots, name, rt)
    {
      for n := 0 to |snapshots|
        invariant State() == ServerRun(old(State()), snapshots[..n], name, rt)
      {
        assert snapshots[..n + 1][..n] == snapshots[..n];
        var _ := Poll(snapshots[n], name);
      }
      assert snapshots[..|snapshots|] == snapshots;
    }

    /** The read API: a copy of the whole current history, in order, taken under the
        lock; it changes nothing. */
    method Snapshot() returns (r: seq<Coord>)
      ensures r == history
    {
      r := history;
    }
  }
}
