/** `bvg_grabber_extended.py`: the per-station tables built from the
    configured `stations` list, the reachability thresholds, the display
    simplifiers and the merge of the per-station responses. The configured
    values (`stations`, `maxWaitSecs`, `bus`), the queries and
    `durationformat` are parameters. */
module Extended {
  import opened Wrappers
  import opened Text
  import opened TestedApi

  /** One configured station: its name and the seconds it takes to reach it. */
  datatype StationEntry = StationEntry(name: string, minReachSeconds: int)

  // ---------------------------------------------------------------------
  // The station tables
  // ---------------------------------------------------------------------

  /** The position of the last entry named `name`, if any. */
  function LastIndexOf(stations: seq<StationEntry>, name: string): (r: Option<nat>)
    ensures r.Some? ==> r.value < |stations| && stations[r.value].name == name
    ensures r.Some? ==> forall j :: r.value < j < |stations| ==> stations[j].name != name
    ensures r.None? ==> forall j :: 0 <= j < |stations| ==> stations[j].name != name
  {
    if |stations| == 0 then None
    else if stations[|stations| - 1].name == name then Some(|stations| - 1)
    else LastIndexOf(stations[..|stations| - 1], name)
  }

  /** `stationToMinReachSeconds` after its loop has seen `stations`. */
  function MinReachTable(stations: seq<StationEntry>): map<string, int> {
    if |stations| == 0 then map[]
    else MinReachTable(stations[..|stations| - 1])[stations[|stations| - 1].name := stations[|stations| - 1].minReachSeconds]
  }

  /** `stationToIndex` after its loop has seen `stations`. */
  function IndexTable(stations: seq<StationEntry>): map<string, nat> {
    if |stations| == 0 then map[]
    else IndexTable(stations[..|stations| - 1])[stations[|stations| - 1].name := |stations| - 1]
  }

  /** A later entry with the same name overrides an earlier one: the table
      holds exactly the configured names, each with the threshold of its
      last entry. */
  lemma {:induction false} MinReachTableIsLast(stations: seq<StationEntry>, name: string)
    ensures name in MinReachTable(stations) <==> LastIndexOf(stations, name).Some?
    ensures name in MinReachTable(stations) ==>
      MinReachTable(stations)[name] == stations[LastIndexOf(stations, name).value].minReachSeconds
    decreases |stations|
  {
    if |stations| > 0 {
      var init := stations[..|stations| - 1];
      MinReachTableIsLast(init, name);
      if stations[|stations| - 1].name != name {
        var k := LastIndexOf(init, name);
        assert k.Some? ==> init[k.value] == stations[k.value];
      }
    }
  }

  /** The index table maps each configured name to its last position. */
  lemma {:induction false} IndexTableIsLast(stations: seq<StationEntry>, name: string)
    ensures name in IndexTable(stations) <==> LastIndexOf(stations, name).Some?
    ensures name in IndexTable(stations) ==> IndexTable(stations)[name] == LastIndexOf(stations, name).value
    decreases |stations|
  {
    if |stations| > 0 {
      IndexTableIsLast(stations[..|stations| - 1], name);
    }
  }

  predicate DistinctNames(stations: seq<StationEntry>) {
    forall i, j :: 0 <= i < j < |stations| ==> stations[i].name != stations[j].name
  }

  /** With distinct names, a station's index is its position in the list. */
  lemma IndexOfDistinctNames(stations: seq<StationEntry>, i: nat)
    requires DistinctNames(stations) && i < |stations|
    ensures stations[i].name in IndexTable(stations) && IndexTable(stations)[stations[i].name] == i
  {
    IndexTableIsLast(stations, stations[i].name);
  }

  /** The loop of lines 16-18. */
  method BuildMinReachTable(stations: seq<StationEntry>) returns (table: map<string, int>)
    ensures table == MinReachTable(stations)
  {
    table := map[];
    for i := 0 to |stations|
      invariant table == MinReachTable(stations[..i])
    {
      assert stations[..i + 1][..i] == stations[..i];
      table := table[stations[i].name := stations[i].minReachSeconds];
    }
    assert stations[..|stations|] == stations;
  }

  /** The loop of lines 20-24, counting positions in `stationIndex`. */
  method BuildIndexTable(stations: seq<StationEntry>) returns (table: map<string, nat>)
    ensures table == IndexTable(stations)
  {
    table := map[];
    var stationIndex := 0;
    for i := 0 to |stations|
      invariant stationIndex == i
      invariant table == IndexTable(stations[..i])
    {
      assert stations[..i + 1][..i] == stations[..i];
      table := table[stations[i].name := stationIndex];
      stationIndex := stationIndex + 1;
    }
    assert stations[..|stations|] == stations;
  }

  /** `station_name_to_minReachSeconds` and `station_name_to_index`: a dictionary
      lookup, `KeyError` for an unknown name. */
  function Lookup<V>(table: map<string, V>, name: string): (r: Result<V>)
    ensures r.Ok? <==> name in table
    ensures r.Ok? ==> r.value == table[name]
    ensures r.Err? ==> r.error == KeyError
  {
    if name in table then Ok(table[name]) else Err(KeyError)
  }

  // ---------------------------------------------------------------------
  // Thresholds
  // ---------------------------------------------------------------------

  /** `leaves_too_soon(departure)`: gone before the station can be reached. */
  function LeavesTooSoon(minReach: map<string, int>, d: Departure): (r: Result<bool>)
    ensures r.Err? <==> d.start !in minReach
    ensures r.Err? ==> r.error == KeyError
    ensures r.Ok? ==> (r.value <==> Remaining(d) < minReach[d.start])
  {
    var reach :- Lookup(minReach, d.start);
    Ok(Remaining(d) < reach)
  }

  /** `leaves_too_late(departure)`: more than `maxWaitSecs` to wait after
      reaching the station. */
  function LeavesTooLate(minReach: map<string, int>, maxWaitSecs: int, d: Departure): (r: Result<bool>)
    ensures r.Err? <==> d.start !in minReach
    ensures r.Err? ==> r.error == KeyError
    ensures r.Ok? ==> (r.value <==> Remaining(d) > minReach[d.start] + maxWaitSecs)
  {
    var reach :- Lookup(minReach, d.start);
    Ok(Remaining(d) > reach + maxWaitSecs)
  }

  /** With a non-negative waiting budget no departure is both too soon and
      too late; it is neither exactly when it leaves inside the window. */
  lemma TooSoonAndTooLateExclude(minReach: map<string, int>, maxWaitSecs: int, d: Departure)
    requires maxWaitSecs >= 0 && d.start in minReach
    ensures !(LeavesTooSoon(minReach, d).value && LeavesTooLate(minReach, maxWaitSecs, d).value)
    ensures !LeavesTooSoon(minReach, d).value && !LeavesTooLate(minReach, maxWaitSecs, d).value <==>
      minReach[d.start] <= Remaining(d) <= minReach[d.start] + maxWaitSecs
  {
  }

  /** With a negative waiting budget some departures are both. */
  lemma NegativeBudgetOverlaps(d: Departure)
    requires Remaining(d) == 0
    ensures var table := map[d.start := 60];
      LeavesTooSoon(table, d) == Ok(true) && LeavesTooLate(table, -120, d) == Ok(true)
  {
  }

  // ---------------------------------------------------------------------
  // Display helpers
  // ---------------------------------------------------------------------

  /** `duration_humanizer(seconds)`: 'now ' for zero, otherwise whatever
      `durationformat` renders. */
  function DurationHumanizer(seconds: int, durationformat: int -> string): (r: string)
    ensures seconds == 0 ==> r == "now "
    ensures seconds != 0 ==> r == durationformat(seconds)
  {
    if seconds == 0 then "now " else durationformat(seconds)
  }

  /** `line_simplifier(line)`. */
  function LineSimplifier(line: string): (r: string)
    ensures |r| <= |line|
    ensures !Occurs(line, "Bus  ") ==> r == line
    ensures IsSubsequence(r, line)
  {
    DeleteAllIsSubsequence(line, "Bus  ");
    DeleteAll(line, "Bus  ")
  }

  /** `location_simplifier(location)`: the four deletions in their order. */
  function LocationSimplifier(location: string): (r: string)
    ensures |r| <= |location|
  {
    DeleteAll(DeleteAll(DeleteAll(DeleteAll(location, " (Berlin)"), "S+U "), "S "), "U ")
  }

  lemma SubsequenceIsTransitive(a: string, b: string, c: string)
    requires IsSubsequence(a, b) && IsSubsequence(b, c)
    ensures IsSubsequence(a, c)
    decreases |c|
  {
    if |a| > 0 && |c| > 0 {
      if IsSubsequence(b, c[1..]) {
        SubsequenceIsTransitive(a, b, c[1..]);
      } else if |b| > 0 {
        assert b[0] == c[0] && IsSubsequence(b[1..], c[1..]);
        if a[0] == b[0] && IsSubsequence(a[1..], b[1..]) {
          SubsequenceIsTransitive(a[1..], b[1..], c[1..]);
        } else {
          SubsequenceIsTransitive(a, b[1..], c[1..]);
        }
      }
    }
  }

  /** The simplified location keeps a selection of the original characters
      in order, and a location with none of the four patterns is kept. */
  lemma LocationSimplifierKeepsOrder(location: string)
    ensures IsSubsequence(LocationSimplifier(location), location)
    ensures !Occurs(location, " (Berlin)") && !Occurs(location, "S+U ") &&
            !Occurs(location, "S ") && !Occurs(location, "U ") ==>
      LocationSimplifier(location) == location
  {
    var a := DeleteAll(location, " (Berlin)");
    var b := DeleteAll(a, "S+U ");
    var c := DeleteAll(b, "S ");
    DeleteAllIsSubsequence(location, " (Berlin)");
    DeleteAllIsSubsequence(a, "S+U ");
    DeleteAllIsSubsequence(b, "S ");
    DeleteAllIsSubsequence(c, "U ");
    SubsequenceIsTransitive(b, a, location);
    SubsequenceIsTransitive(c, b, location);
    SubsequenceIsTransitive(LocationSimplifier(location), c, location);
  }

  // ---------------------------------------------------------------------
  // Merging the per-station responses
  // ---------------------------------------------------------------------

  /** `get_station_data(station)`: the scheduled response, with the actual
      departures merged in when `bus` is set. Both queries are performed by
      the caller and passed in. */
  method GetStationData(scheduled: Response, actual: Response, bus: bool)
    returns (raised: Option<Exception>)
    modifies scheduled
    ensures !bus ==> raised.None? && scheduled.groups == old(scheduled.groups)
    ensures bus ==> (raised.None? <==> old(scheduled.state) && old(actual.state))
    ensures bus && raised.None? ==> scheduled.groups == old(scheduled.groups) + old(actual.groups)
    ensures bus && raised.Some? ==> raised == Some(ValueError) && scheduled.groups == old(scheduled.groups)
    ensures scheduled.state == old(scheduled.state) && scheduled.error == old(scheduled.error)
  {
    raised := None;
    if bus {
      raised := scheduled.Merge(AResponse(actual));
    }
  }

  /** The groups of `rs`, in order. */
  ghost function AllGroups(rs: seq<Response>): seq<StationGroup>
    reads set r | r in rs
  {
    if |rs| == 0 then [] else AllGroups(rs[..|rs| - 1]) + rs[|rs| - 1].groups
  }

  ghost predicate AllSucceeded(rs: seq<Response>)
    reads set r | r in rs
  {
    forall k :: 0 <= k < |rs| ==> rs[k].state
  }

  /** The index of the first failed response, or `|rs|`. */
  ghost function FirstFailure(rs: seq<Response>): (k: nat)
    reads set r | r in rs
    ensures k <= |rs|
    ensures forall j :: 0 <= j < k ==> rs[j].state
    ensures k < |rs| ==> !rs[k].state
  {
    if |rs| == 0 then 0
    else if !rs[0].state then 0
    else 1 + FirstFailure(rs[1..])
  }

  /** How many of the responses `get_data` takes in before a merge fails:
      all of them, or up to the first failed one (the first response alone
      when it has failed itself). */
  ghost function MergedCount(rs: seq<Response>): (n: nat)
    requires |rs| > 0
    reads set r | r in rs
    ensures 1 <= n <= |rs|
    ensures n == |rs| <==> |rs| == 1 || AllSucceeded(rs)
  {
    if !rs[0].state then 1 else FirstFailure(rs)
  }

  /** `get_data()`: `fetched[i]` is what `get_station_data` returns for the
      `i`-th station (each query builds a new response). The first response
      receives every later one in list order; a failed response stops the
      loop with the `ValueError` of `merge`, after the merges before it. An
      empty station list fails with `IndexError` at `stations[0]`. */
  method GetData(fetched: seq<Response>) returns (result: Option<Response>, raised: Option<Exception>)
    requires forall i :: 0 < i < |fetched| ==> fetched[i] != fetched[0]
    modifies if |fetched| > 0 then {fetched[0]} else {}
    ensures |fetched| == 0 ==> raised == Some(IndexError) && result.None?
    ensures |fetched| > 0 ==> result == Some(fetched[0])
    ensures |fetched| > 0 ==> (raised.None? <==> old(MergedCount(fetched)) == |fetched|)
    ensures |fetched| > 0 ==> fetched[0].groups == old(AllGroups(fetched[..MergedCount(fetched)]))
    ensures |fetched| > 0 && raised.Some? ==> raised == Some(ValueError)
    ensures |fetched| > 0 ==> fetched[0].state == old(fetched[0].state) && fetched[0].error == old(fetched[0].error)
  {
    if |fetched| == 0 {
      return None, Some(IndexError);
    }
    var responses := fetched[0];
    result, raised := Some(responses), None;
    assert fetched[..1][..0] == [] && fetched[..1][0] == fetched[0];
    assert AllGroups(fetched[..1]) == fetched[0].groups;
    var stationIndex := 1;
    while stationIndex < |fetched|
      invariant 1 <= stationIndex <= |fetched|
      invariant raised.None?
      invariant forall k :: 0 <= k < |fetched| ==> fetched[k].state == old(fetched[k].state)
      invariant forall k :: 0 < k < |fetched| ==> fetched[k].groups == old(fetched[k].groups)
      invariant fetched[0].error == old(fetched[0].error)
      invariant responses.groups == old(AllGroups(fetched[..stationIndex]))
      invariant forall k :: 0 < k < stationIndex ==> old(fetched[0].state) && old(fetched[k].state)
    {
      var responsesNew := fetched[stationIndex];
      assert fetched[..stationIndex + 1][..stationIndex] == fetched[..stationIndex];
      raised := responses.Merge(AResponse(responsesNew));
      if raised.Some? {
        assert old(MergedCount(fetched)) == stationIndex;
        return;
      }
      stationIndex := stationIndex + 1;
    }
    assert fetched[..stationIndex] == fetched;
  }
}
