/** The `track` command: a foreground loop that writes every located sample of the
    tracked item to its own log as `[ts, lat, lon, address]`, with no dedup and no
    in-memory history. A new log file starts with a four-column header. */
module Track {
  import opened Wrappers
  import opened Records
  import opened Addresses
  import opened Snapshot
  import History

  /** The row written for one sample with its item's address. */
  function TrackRow(f: Sighting, a: Address, rt: Runtime): (r: Row)
    ensures |r| == |TrackHeader|
    ensures r[..3] == LogRow(f.coord, rt)
    ensures r[3] == FullAddress(a)
    ensures r[3] == [] || (!IsSeparator(r[3][0]) && !IsSeparator(r[3][|r[3]| - 1]))
  {
    [f.coord.ts, rt.render(f.coord.lat), Cell(f.coord.lon, rt), FullAddress(a)]
  }

  /** A poll that the `track` loop logs: a sample is found and its item's address
      can be read (a null `address` raises, and the iteration writes nothing). */
  predicate Logs(snapshot: Option<seq<Item>>, name: string, rt: Runtime) {
    var e := Extract(snapshot, name, rt);
    e.Found? && AddressOf(e.sighting.item).Some?
  }

  /** The log when the loop starts: the existing file, or a header for a new one. */
  function OpenLog(file: Option<seq<Row>>): (r: seq<Row>)
    ensures file.Some? ==> r == file.value
    ensures file.None? ==> r == [TrackHeader]
  {
    match file
    case Some(rows) => rows
    case None => [TrackHeader]
  }

  /** One iteration of the `track` loop. */
  function TrackStep(log: seq<Row>, snapshot: Option<seq<Item>>, name: string, rt: Runtime): (r: seq<Row>)
    ensures log <= r
    ensures |r| == |log| + (if Logs(snapshot, name, rt) then 1 else 0)
    ensures Logs(snapshot, name, rt) ==>
      var f := Extract(snapshot, name, rt).sighting;
      r[|log|] == TrackRow(f, AddressOf(f.item).value, rt)
  {
    match Extract(snapshot, name, rt)
    case Skipped(_) => log
    case Found(f) =>
      match AddressOf(f.item)
      case None => log
      case Some(a) => log + [TrackRow(f, a, rt)]
  }

  /** The `track` loop over a finite list of snapshots. */
  function TrackRun(log: seq<Row>, snapshots: seq<Option<seq<Item>>>, name: string, rt: Runtime): (r: seq<Row>)
    ensures log <= r && |r| <= |log| + |snapshots|
  {
    if snapshots == [] then log
    else TrackStep(TrackRun(log, snapshots[..|snapshots| - 1], name, rt), snapshots[|snapshots| - 1], name, rt)
  }

  /** How many of the snapshots the `track` loop logs. */
  function Located(snapshots: seq<Option<seq<Item>>>, name: string, rt: Runtime): (n: nat)
    ensures n <= |snapshots|
  {
    if snapshots == [] then 0
    else Located(snapshots[..|snapshots| - 1], name, rt) +
         (if Logs(snapshots[|snapshots| - 1], name, rt) then 1 else 0)
  }

  /** Every logged sample adds exactly one four-column row at the end of the log, and
      nothing else adds a row: there is no dedup in `track` mode. */
  lemma {:induction false} TrackRunRows(log: seq<Row>, snapshots: seq<Option<seq<Item>>>, name: string, rt: Runtime)
    ensures var r := TrackRun(log, snapshots, name, rt);
      log <= r && |r| == |log| + Located(snapshots, name, rt) &&
      forall i | |log| <= i < |r| :: |r[i]| == |TrackHeader|
  {
    if snapshots != [] {
      TrackRunRows(log, snapshots[..|snapshots| - 1], name, rt);
    }
  }

  /** A log the `track` loop created: the four-column header, then only four-column rows. */
  lemma NewTrackLog(snapshots: seq<Option<seq<Item>>>, name: string, rt: Runtime)
    ensures var r := TrackRun(OpenLog(None), snapshots, name, rt);
      r != [] && r[0] == TrackHeader && forall i | 0 <= i < |r| :: |r[i]| == 4
  {
    TrackRunRows(OpenLog(None), snapshots, name, rt);
  }

  /** The same located snapshot polled twice is logged twice by `track`, while the live
      server takes it at most once. */
  lemma RepeatsLogged(log: seq<Row>, s: History.Store, snapshot: Option<seq<Item>>, name: string, rt: Runtime)
    requires Logs(snapshot, name, rt)
    ensures |TrackRun(log, [snapshot, snapshot], name, rt)| == |log| + 2
    ensures |History.ServerRun(s, [snapshot, snapshot], name, rt).history| <= |s.history| + 1
  {
    var f := Extract(snapshot, name, rt).sighting;
    assert [snapshot, snapshot][..1] == [snapshot];
    assert [snapshot][..0] == [];
    var l1 := TrackRun(log, [snapshot], name, rt);
    assert TrackRun(log, [snapshot][..0], name, rt) == log;
    assert l1 == TrackStep(log, snapshot, name, rt);
    assert TrackRun(log, [snapshot, snapshot], name, rt) == TrackStep(l1, snapshot, name, rt);
    var s1 := History.ServerRun(s, [snapshot], name, rt);
    assert History.ServerRun(s, [snapshot][..0], name, rt) == s;
    assert s1 == History.ServerStep(s, snapshot, name, rt) == History.Offer(s, f.coord, rt);
    assert History.ServerRun(s, [snapshot, snapshot], name, rt) == History.Offer(s1, f.coord, rt) == s1;
  }

  /** A found sample whose item has a null `address` is not logged by `track` (the
      address lookup raises), while the live server, which never reads the address, takes it. */
  lemma NullAddressSkipsTrackOnly(log: seq<Row>, s: History.Store, snapshot: Option<seq<Item>>, name: string, rt: Runtime)
    requires Extract(snapshot, name, rt).Found? && Extract(snapshot, name, rt).sighting.item.address.Null?
    ensures TrackStep(log, snapshot, name, rt) == log
    ensures History.ServerStep(s, snapshot, name, rt) == History.Offer(s, Extract(snapshot, name, rt).sighting.coord, rt)
  {
  }

  /** The `track` loop's state: the rows of its log file. */
  class TrackLogger {
    var log: seq<Row>
    const rt: Runtime

    /** Opening the log: a header is written only when the file does not exist. */
    constructor Open(file: Option<seq<Row>>, rt: Runtime)
      ensures this.rt == rt && log == OpenLog(file)
    {
      this.rt := rt;
      log := if file.None? then [TrackHeader] else file.value;
    }

    /** One iteration: log the sample when the tracked item has a fix and a readable address. */
    method Poll(snapshot: Option<seq<Item>>, name: string) returns (outcome: Extracted, logged: bool)
      modifies this
      ensures outcome == Extract(snapshot, name, rt)
      ensures logged <==> Logs(snapshot, name, rt)
      ensures log == TrackStep(old(log), snapshot, name, rt)
    {
      outcome := Extract(snapshot, name, rt);
      logged := false;
      if outcome.Found? {
        var address := AddressOf(outcome.sighting.item);
        if address.Some? {
          log := log + [TrackRow(outcome.sighting, address.value, rt)];
          logged := true;
        }
      }
    }

    /** The loop, one iteration per snapshot. */
    method Track(snapshots: seq<Option<seq<Item>>>, name: string)
      modifies this
      ensures log == TrackRun(old(log), snapshots, name, rt)
    {
      for n := 0 to |snapshots|
        invariant log == TrackRun(old(log), snapshots[..n], name, rt)
      {
        assert snapshots[..n + 1][..n] == snapshots[..n];
        var _, _ := Poll(snapshots[n], name);
      }
      assert snapshots[..|snapshots|] == snapshots;
    }
  }
}
