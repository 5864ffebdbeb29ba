/** The device snapshot as the poller sees it, and the extraction of the tracked
    item's sample from it: first item with the exact name, then the location gate. */
module Snapshot {
  import opened Wrappers
  import opened Records
  import opened Addresses

  /** The item's `location` record. It is read with `.get`, so a missing and a null latitude
      or longitude are the same None; the time stamp (milliseconds) is read with a default,
      which only a missing key gets. */
  datatype Location = Location(timeStamp: Entry<int>, latitude: Option<real>, longitude: Option<real>)

  /** One device record of a snapshot. `name` and `location` are read with `.get`, so missing
      and null are one None; `address` is read with a default, which only a missing key gets. */
  datatype Item = Item(name: Option<string>, location: Option<Location>, address: Entry<Address>)

  /** Why a poll iteration recorded nothing. */
  datatype Skip =
    | NoSnapshot     // the snapshot could not be read, or held no items
    | NotFound       // no item carries the tracked name
    | NoLocation     // the item has no location, or its latitude is null
    | BadTimestamp   // the time stamp is null, or could not be turned into local time

  /** The tracked item as found in a snapshot, with the record built from its location. */
  datatype Sighting = Sighting(item: Item, coord: Coord)

  datatype Extracted = Found(sighting: Sighting) | Skipped(why: Skip)

  /** Index of the first item whose name is exactly `name` (`next(...)` over the items). */
  function FindFirst(items: seq<Item>, name: string): (r: Option<nat>)
    ensures r.Some? ==> r.value < |items| && items[r.value].name == Some(name)
    ensures r.Some? ==> forall j | 0 <= j < r.value :: items[j].name != Some(name)
    ensures r.None? <==> forall j | 0 <= j < |items| :: items[j].name != Some(name)
  {
    if items == [] then None
    else if items[0].name == Some(name) then Some(0)
    else
      match FindFirst(items[1..], name)
      case None =>
        assert forall j | 1 <= j < |items| :: items[j] == items[1..][j - 1];
        None
      case Some(k) =>
        assert forall j | 1 <= j < k + 1 :: items[j] == items[1..][j - 1];
        Some(k + 1)
  }

  /** The location gate: a location is present and its latitude is not null. */
  predicate HasFix(it: Item) {
    it.location.Some? && it.location.value.latitude.Some?
  }

  /** The time stamp read with `location.get('timeStamp', 0)` and divided by 1000: a missing
      key reads as 0, and a null one makes the division raise `TypeError` (None). */
  function TimeStampOf(loc: Location): (r: Option<int>)
    ensures loc.timeStamp.Absent? ==> r == Some(0)
    ensures loc.timeStamp.Null? ==> r.None?
    ensures loc.timeStamp.Present? ==> r == Some(loc.timeStamp.value)
  {
    match loc.timeStamp
    case Absent => Some(0)
    case Null => None
    case Present(ms) => Some(ms)
  }

  /** The address read with `item.get('address', {})`: a missing key reads as the empty
      address, and a null one makes the following `.get` raise `AttributeError` (None). */
  function AddressOf(it: Item): (r: Option<Address>)
    ensures it.address.Absent? ==> r == Some(NoAddress)
    ensures it.address.Null? ==> r.None?
    ensures it.address.Present? ==> r == Some(it.address.value)
  {
    match it.address
    case Absent => Some(NoAddress)
    case Null => None
    case Present(a) => Some(a)
  }

  /** The formatted local time of a location, when there is one. */
  function LocalTimeOf(loc: Location, rt: Runtime): Option<string> {
    match TimeStampOf(loc)
    case None => None
    case Some(ms) => rt.localTime(ms)
  }

  /** The item `next(...)` returns: the first one named exactly `name`. */
  function FirstMatch(items: seq<Item>, name: string): (r: Option<Item>)
    ensures r.None? <==> forall j | 0 <= j < |items| :: items[j].name != Some(name)
    ensures r.Some? ==> r.value.name == Some(name)
    ensures r.Some? ==>
      exists k | 0 <= k < |items| :: items[k] == r.value && forall j | 0 <= j < k :: items[j].name != Some(name)
  {
    match FindFirst(items, name)
    case None => None
    case Some(k) => Some(items[k])
  }

  /** One poll iteration up to the point where a record is built (both poll loops share it). */
  function Extract(snapshot: Option<seq<Item>>, name: string, rt: Runtime): (r: Extracted)
    ensures r == Skipped(NoSnapshot) <==> snapshot.None? || snapshot.value == []
    ensures r == Skipped(NotFound) <==>
      snapshot.Some? && snapshot.value != [] && FirstMatch(snapshot.value, name).None?
    ensures r == Skipped(NoLocation) <==>
      snapshot.Some? && snapshot.value != [] && FirstMatch(snapshot.value, name).Some? &&
      !HasFix(FirstMatch(snapshot.value, name).value)
    ensures r == Skipped(BadTimestamp) <==>
      snapshot.Some? && snapshot.value != [] && FirstMatch(snapshot.value, name).Some? &&
      HasFix(FirstMatch(snapshot.value, name).value) &&
      LocalTimeOf(FirstMatch(snapshot.value, name).value.location.value, rt).None?
    ensures r.Found? ==>
      var it := r.sighting.item;
      var c := r.sighting.coord;
      snapshot.Some? && snapshot.value != [] && FirstMatch(snapshot.value, name) == Some(it) &&
      HasFix(it) &&
      LocalTimeOf(it.location.value, rt) == Some(c.ts) &&
      it.location.value.latitude == Some(c.lat) && it.location.value.longitude == c.lon
  {
    match snapshot
    case None => Skipped(NoSnapshot)
    case Some(items) =>
      if items == [] then Skipped(NoSnapshot)
      else
        match FirstMatch(items, name)
        case None => Skipped(NotFound)
        case Some(it) =>
          if !HasFix(it) then Skipped(NoLocation)
          else
            var loc := it.location.value;
            match LocalTimeOf(loc, rt)
            case None => Skipped(BadTimestamp)
            case Some(ts) => Found(Sighting(it, Coord(ts, loc.latitude.value, loc.longitude)))
  }

  /** The first match decides: a later item with the same name is never looked at,
      even when the first one has no location. */
  lemma FirstMatchDecides(items: seq<Item>, name: string, k: nat, rt: Runtime)
    requires k < |items| && items[k].name == Some(name) && !HasFix(items[k])
    requires forall j | 0 <= j < k :: items[j].name != Some(name)
    ensures Extract(Some(items), name, rt) == Skipped(NoLocation)
  {
    var f := FindFirst(items, name);
    assert f == Some(k) by {
      assert f.Some?;
      assert f.value <= k;
    }
  }
}
