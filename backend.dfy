/** The in-memory queries of the fire-department API (`backend/main.py`): the incident list with its
    optional filters, the station and incident lookups with their 404 errors, and the counting part
    of the statistics. The record lists are fixed at start-up; the queries never change them. */
module Backend {
  import opened Text
  import opened Wrappers

  datatype Station = Station(id: int, name: string, address: string, apparatusCount: int, onDutyCount: int, lat: real, lng: real)

  /** An incident; `reported_at` is a clock reading at start-up minus a fixed offset, kept here as
      that offset in minutes. */
  datatype Incident = Incident(
    id: int, kind: string, severity: string, status: string, address: string,
    reportedMinutesAgo: nat, unitsResponding: seq<string>, stationId: int)

  const STATIONS: seq<Station> := [
    Station(1, "Station 1 - Central", "100 Main St", 4, 12, 47.6062, -122.3321),
    Station(2, "Station 2 - North", "220 North Ave", 3, 9, 47.6756, -122.2711),
    Station(3, "Station 3 - South", "450 South Blvd", 3, 8, 47.5233, -122.3550)
  ]

  const INCIDENTS: seq<Incident> := [
    Incident(101, "Structure Fire", "Critical", "Active", "742 Evergreen Terrace", 12, ["E1", "T1", "B1", "M3"], 1),
    Incident(102, "Medical Aid", "Moderate", "Cleared", "88 Lakeview Rd", 185, ["M2"], 2),
    Incident(103, "Vehicle Accident", "High", "Active", "I-5 S & Exit 163", 34, ["E3", "M4", "B2"], 3),
    Incident(104, "Alarm Bell", "Low", "Cleared", "55 Commerce Park", 900, ["E2"], 2)
  ]

  /** `a` is `b` with some elements left out, the rest in their order. */
  predicate SubsequenceOf<T(==)>(a: seq<T>, b: seq<T>)
    decreases |b|
  {
    if a == [] then true
    else if b == [] then false
    else if a[0] == b[0] then SubsequenceOf(a[1..], b[1..])
    else SubsequenceOf(a, b[1..])
  }

  /** A list comprehension with a condition: the elements that satisfy `p`, in order. */
  function Filter<T(==)>(xs: seq<T>, p: T -> bool): (r: seq<T>)
    ensures SubsequenceOf(r, xs)
    ensures forall k :: 0 <= k < |r| ==> r[k] in xs && p(r[k])
    ensures forall k :: 0 <= k < |xs| && p(xs[k]) ==> xs[k] in r
    ensures |r| <= |xs|
  {
    if xs == [] then []
    else if p(xs[0]) then
      var rest := Filter(xs[1..], p);
      var r := [xs[0]] + rest;
      assert r[1..] == rest;
      assert forall k :: 1 <= k < |xs| ==> xs[k] == xs[1..][k - 1];
      assert forall k :: 1 <= k < |r| ==> r[k] == rest[k - 1];
      r
    else
      assert forall k :: 1 <= k < |xs| ==> xs[k] == xs[1..][k - 1];
      Filter(xs[1..], p)
  }

  /** Membership in a filtered list: in the list and satisfying the condition. */
  lemma FilterMembers<T>(xs: seq<T>, p: T -> bool)
    ensures forall x :: x in Filter(xs, p) <==> x in xs && p(x)
  {
    var r := Filter(xs, p);
    forall x | x in xs && p(x)
      ensures x in r
    {
      var k :| 0 <= k < |xs| && xs[k] == x;
    }
  }

  /** The position of the first element that satisfies `p`, or `|xs|` when none does. */
  function FirstWhere<T>(xs: seq<T>, p: T -> bool): (i: nat)
    ensures i <= |xs|
    ensures i < |xs| ==> p(xs[i])
    ensures forall j :: 0 <= j < i ==> !p(xs[j])
  {
    if xs == [] then 0 else if p(xs[0]) then 0 else 1 + FirstWhere(xs[1..], p)
  }

  /** `next((x for x in xs if p(x)), None)`: the first element that satisfies `p`. */
  function Find<T>(xs: seq<T>, p: T -> bool): (r: Option<T>)
    ensures r.None? <==> forall i :: 0 <= i < |xs| ==> !p(xs[i])
    ensures r.Some? ==> exists i :: 0 <= i < |xs| && xs[i] == r.value && p(xs[i]) && forall j :: 0 <= j < i ==> !p(xs[j])
  {
    var i := FirstWhere(xs, p);
    if i == |xs| then None else Some(xs[i])
  }

  /** `if value:` for an optional query parameter: given and not empty. */
  predicate Given(o: Option<string>) {
    o.Some? && o.value != ""
  }

  /** `record.lower() == query.lower()`, with ASCII case folding. */
  predicate SameIgnoringCase(a: string, b: string) {
    AsciiLower(a) == AsciiLower(b)
  }

  /** `list_incidents(status, severity)`: the status filter, then the severity filter, each only
      when its parameter is given. */
  function ListIncidents(incidents: seq<Incident>, status: Option<string>, severity: Option<string>): (r: seq<Incident>)
    ensures |r| <= |incidents|
    ensures forall k :: 0 <= k < |r| ==> r[k] in incidents && Wanted(r[k], status, severity)
    ensures !Given(status) && !Given(severity) ==> r == incidents
  {
    var data := if Given(status) then Filter(incidents, (i: Incident) => SameIgnoringCase(i.status, status.value)) else incidents;
    if Given(severity) then Filter(data, (i: Incident) => SameIgnoringCase(i.severity, severity.value)) else data
  }

  /** What a listed incident satisfies: the status and the severity that were given. */
  predicate Wanted(i: Incident, status: Option<string>, severity: Option<string>) {
    && (Given(status) ==> SameIgnoringCase(i.status, status.value))
    && (Given(severity) ==> SameIgnoringCase(i.severity, severity.value))
  }

  /** Two filters in a row are one filter on both conditions. */
  lemma {:induction false} FilterTwice<T>(xs: seq<T>, p: T -> bool, q: T -> bool, pq: T -> bool)
    requires forall x :: pq(x) == (p(x) && q(x))
    ensures Filter(Filter(xs, p), q) == Filter(xs, pq)
  {
    if xs != [] {
      FilterTwice(xs[1..], p, q, pq);
      if p(xs[0]) {
        assert Filter(xs, p)[1..] == Filter(xs[1..], p);
      }
    }
  }

  /** Filters with the same condition give the same list. */
  lemma {:induction false} FilterSame<T>(xs: seq<T>, p: T -> bool, q: T -> bool)
    requires forall x :: p(x) == q(x)
    ensures Filter(xs, p) == Filter(xs, q)
  {
    if xs != [] {
      FilterSame(xs[1..], p, q);
    }
  }

  /** The listed incidents are exactly the wanted ones, in their original order. */
  lemma ListIncidentsSelects(incidents: seq<Incident>, status: Option<string>, severity: Option<string>)
    ensures ListIncidents(incidents, status, severity) == Filter(incidents, (i: Incident) => Wanted(i, status, severity))
  {
    var wanted := (i: Incident) => Wanted(i, status, severity);
    if Given(status) && Given(severity) {
      FilterTwice(incidents, (i: Incident) => SameIgnoringCase(i.status, status.value), (i: Incident) => SameIgnoringCase(i.severity, severity.value), wanted);
    } else if Given(status) {
      FilterSame(incidents, (i: Incident) => SameIgnoringCase(i.status, status.value), wanted);
    } else if Given(severity) {
      FilterSame(incidents, (i: Incident) => SameIgnoringCase(i.severity, severity.value), wanted);
    } else {
      FilterSame(incidents, (i: Incident) => true, wanted);
      FilterAll(incidents, (i: Incident) => true);
    }
  }

  /** A condition every element meets keeps the whole list. */
  lemma {:induction false} FilterAll<T>(xs: seq<T>, p: T -> bool)
    requires forall x :: p(x)
    ensures Filter(xs, p) == xs
  {
    if xs != [] {
      FilterAll(xs[1..], p);
      assert [xs[0]] + xs[1..] == xs;
    }
  }

  /** The incident list is an order-preserving part of the records holding exactly the incidents
      that match the given filters; without filters it is the whole list. */
  lemma ListIncidentsProperties(incidents: seq<Incident>, status: Option<string>, severity: Option<string>)
    ensures SubsequenceOf(ListIncidents(incidents, status, severity), incidents)
    ensures forall i :: i in ListIncidents(incidents, status, severity) <==> i in incidents && Wanted(i, status, severity)
    ensures !Given(status) && !Given(severity) ==> ListIncidents(incidents, status, severity) == incidents
  {
    ListIncidentsSelects(incidents, status, severity);
  }

  /** An HTTP error reply. */
  datatype HttpError = HttpError(statusCode: int, detail: string)

  /** The reply of `get_station`. */
  datatype StationDetail = StationDetail(station: Station, recentIncidents: seq<Incident>)

  /** The condition of the station's incident list. */
  function AtStation(stationId: int): Incident -> bool {
    (i: Incident) => i.stationId == stationId
  }

  /** `get_station(station_id)`: the first station with the id, with the incidents it answers. */
  function GetStation(stations: seq<Station>, incidents: seq<Incident>, stationId: int): (r: Result<StationDetail, HttpError>)
    ensures r.Err? <==> forall k :: 0 <= k < |stations| ==> stations[k].id != stationId
    ensures r.Err? ==> r.error == HttpError(404, "Station not found")
    ensures r.Ok? ==> r.value.station.id == stationId
    ensures r.Ok? ==> exists k :: 0 <= k < |stations| && stations[k] == r.value.station && forall j :: 0 <= j < k ==> stations[j].id != stationId
    ensures r.Ok? ==> r.value.recentIncidents == Filter(incidents, AtStation(stationId))
    ensures r.Ok? ==> SubsequenceOf(r.value.recentIncidents, incidents)
    ensures r.Ok? ==> forall i :: i in r.value.recentIncidents <==> i in incidents && i.stationId == stationId
  {
    match Find(stations, (s: Station) => s.id == stationId)
    case None => Err(HttpError(404, "Station not found"))
    case Some(s) =>
      var p := AtStation(stationId);
      FilterMembers(incidents, p);
      Ok(StationDetail(s, Filter(incidents, p)))
  }

  /** The reply of `get_incident`. */
  datatype IncidentDetail = IncidentDetail(incident: Incident, station: Option<Station>)

  /** `get_incident(incident_id)`: the first incident with the id, with the first station whose id
      is its station id, if any. */
  function GetIncident(stations: seq<Station>, incidents: seq<Incident>, incidentId: int): (r: Result<IncidentDetail, HttpError>)
    ensures r.Err? <==> forall k :: 0 <= k < |incidents| ==> incidents[k].id != incidentId
    ensures r.Err? ==> r.error == HttpError(404, "Incident not found")
    ensures r.Ok? ==> r.value.incident.id == incidentId
    ensures r.Ok? ==> exists k :: 0 <= k < |incidents| && incidents[k] == r.value.incident && forall j :: 0 <= j < k ==> incidents[j].id != incidentId
    ensures r.Ok? ==> (r.value.station.None? <==> forall k :: 0 <= k < |stations| ==> stations[k].id != r.value.incident.stationId)
    ensures r.Ok? && r.value.station.Some? ==> r.value.station.value.id == r.value.incident.stationId
    ensures r.Ok? && r.value.station.Some? ==>
      exists k :: 0 <= k < |stations| && stations[k] == r.value.station.value && forall j :: 0 <= j < k ==> stations[j].id != r.value.incident.stationId
  {
    match Find(incidents, (i: Incident) => i.id == incidentId)
    case None => Err(HttpError(404, "Incident not found"))
    case Some(i) => Ok(IncidentDetail(i, Find(stations, (s: Station) => s.id == i.stationId)))
  }

  /** `sum(1 for x in xs if p(x))`. */
  function Count<T>(xs: seq<T>, p: T -> bool): (n: nat)
    ensures n <= |xs|
  {
    if xs == [] then 0 else (if p(xs[0]) then 1 else 0) + Count(xs[1..], p)
  }

  /** No station reports a negative on-duty count. */
  predicate CountsNonNegative(stations: seq<Station>) {
    forall k :: 0 <= k < |stations| ==> stations[k].onDutyCount >= 0
  }

  /** `sum(s["on_duty_count"] for s in stations)`: with no negative count, the total is never
      negative and at least any one station's count. */
  function OnDuty(stations: seq<Station>): (n: int)
    ensures stations == [] ==> n == 0
    ensures CountsNonNegative(stations) ==> n >= 0
    ensures CountsNonNegative(stations) ==> forall k :: 0 <= k < |stations| ==> stations[k].onDutyCount <= n
  {
    if stations == [] then 0
    else
      assert CountsNonNegative(stations) ==> CountsNonNegative(stations[1..]) by {
        assert forall k :: 1 <= k < |stations| ==> stations[1..][k - 1] == stations[k];
      }
      assert forall k :: 1 <= k < |stations| ==> stations[1..][k - 1] == stations[k];
      stations[0].onDutyCount + OnDuty(stations[1..])
  }

  /** The counting fields of `compute_stats`. */
  datatype Stats = Stats(activeIncidents: nat, firefightersOnDuty: int, stations: nat)

  /** `i["status"].lower() == "active"` */
  predicate IsActive(i: Incident) {
    AsciiLower(i.status) == "active"
  }

  /** The counts of `compute_stats`: the active count is the length of the incident list filtered on
      status `active`, and the station count is the number of stations. */
  function ComputeStats(stations: seq<Station>, incidents: seq<Incident>): (s: Stats)
    ensures s.activeIncidents == |ListIncidents(incidents, Some("active"), None)|
    ensures s.activeIncidents <= |incidents|
    ensures s.firefightersOnDuty == OnDuty(stations) && s.stations == |stations|
  {
    ActiveIsListLength(incidents);
    Stats(Count(incidents, IsActive), OnDuty(stations), |stations|)
  }

  /** Counting is filtering and taking the length. */
  lemma {:induction false} CountIsFilterLength<T>(xs: seq<T>, p: T -> bool)
    ensures Count(xs, p) == |Filter(xs, p)|
  {
    if xs != [] {
      CountIsFilterLength(xs[1..], p);
    }
  }

  /** Counting the active incidents is taking the length of the list filtered on status `active`. */
  lemma ActiveIsListLength(incidents: seq<Incident>)
    ensures Count(incidents, IsActive) == |ListIncidents(incidents, Some("active"), None)|
  {
    var p := IsActive;
    var q := (i: Incident) => SameIgnoringCase(i.status, "active");
    assert AsciiLower("active") == "active";
    CountIsFilterLength(incidents, p);
    FilterSame(incidents, p, q);
  }

  /** The on-duty total of two groups of stations is the sum of their totals. */
  lemma {:induction false} OnDutyAppend(a: seq<Station>, b: seq<Station>)
    ensures OnDuty(a + b) == OnDuty(a) + OnDuty(b)
  {
    if a == [] {
      assert a + b == b;
    } else {
      assert (a + b)[0] == a[0] && (a + b)[1..] == a[1..] + b;
      OnDutyAppend(a[1..], b);
    }
  }

  /** The two statuses of the built-in incidents, lowered. */
  lemma SampleStatuses()
    ensures AsciiLower("Active") == "active" && AsciiLower("Cleared") != "active"
  {
    assert AsciiLower("Cleared")[0] == 'c';
  }

  /** Counting over four elements. */
  lemma CountFour<T>(a: T, b: T, c: T, d: T, p: T -> bool)
    ensures Count([a, b, c, d], p) == (if p(a) then 1 else 0) + (if p(b) then 1 else 0) + (if p(c) then 1 else 0) + (if p(d) then 1 else 0)
  {
    assert [d][1..] == [];
    assert Count([d], p) == (if p(d) then 1 else 0);
    assert [c, d][1..] == [d];
    assert Count([c, d], p) == (if p(c) then 1 else 0) + Count([d], p);
    assert [b, c, d][1..] == [c, d];
    assert Count([b, c, d], p) == (if p(b) then 1 else 0) + Count([c, d], p);
    assert [a, b, c, d][1..] == [b, c, d];
  }

  /** Two of the built-in incidents are active. */
  lemma SampleActive()
    ensures Count(INCIDENTS, IsActive) == 2
  {
    SampleStatuses();
    var xs := INCIDENTS;
    assert xs[0].status == "Active" && xs[1].status == "Cleared" && xs[2].status == "Active" && xs[3].status == "Cleared";
    assert xs == [xs[0], xs[1], xs[2], xs[3]];
    CountFour(xs[0], xs[1], xs[2], xs[3], IsActive);
  }

  /** Twenty-nine firefighters are on duty at the built-in stations. */
  lemma SampleOnDuty()
    ensures OnDuty(STATIONS) == 29
  {
    var ss := STATIONS;
    assert ss[1..] == [ss[1], ss[2]] && ss[2..] == [ss[2]];
    assert OnDuty([ss[2]]) == 8 by {
      assert [ss[2]][1..] == [];
    }
    assert OnDuty([ss[1], ss[2]]) == 17 by {
      assert [ss[1], ss[2]][1..] == [ss[2]];
    }
  }

  /** On the built-in records: two active incidents, twenty-nine firefighters on duty, three stations. */
  lemma SampleStats()
    ensures ComputeStats(STATIONS, INCIDENTS) == Stats(2, 29, 3)
  {
    SampleActive();
    SampleOnDuty();
  }
}
