/** `getUserLocations`, `prepLocationFields`, `searchLocation` and
    `addSchoolLocation`: batch location lookups, the positional id-to-location
    projection, and the school inference. */
module Locations {
  import opened Wrappers
  import opened Text
  import opened Json
  import Keys
  import Lists

  /** `getUserLocations`: one batch lookup for a non-empty id list, nothing
      for an empty one. */
  function GetUserLocations(ids: seq<Value>, lookup: seq<Value> -> seq<Value>): (r: seq<Value>)
    ensures |ids| == 0 ==> r == []
    ensures |ids| > 0 ==> r == lookup(ids)
  {
    if |ids| > 0 then lookup(ids) else []
  }

  /** `prepLocationFields`: for each id in order, the location stored under it,
      or null where there is none (a hole, never an error). */
  function PrepLocationFields(ids: seq<Value>, locationInfo: map<Value, Record>): (r: seq<Value>)
    ensures |r| == |ids|
    ensures forall i {:trigger r[i]} :: 0 <= i < |ids| ==>
      r[i] == if ids[i] in locationInfo then Object(locationInfo[ids[i]]) else Null
  {
    if |ids| == 0 then []
    else
      var head := if ids[0] in locationInfo then Object(locationInfo[ids[0]]) else Null;
      [head] + PrepLocationFields(ids[1..], locationInfo)
  }

  /** Over a map built by `toMap` from a lookup, the projection is positional:
      entry i is null or the location whose own id is ids[i], and it is null
      only when the lookup returned no row with that id. */
  lemma PositionalLookup(ids: seq<Value>, rows: seq<Value>, i: int)
    requires Lists.IndexById(rows).Some?
    requires 0 <= i < |ids|
    ensures var r := PrepLocationFields(ids, Lists.IndexById(rows).value);
      && (r[i] != Null ==> r[i].Object? && Get(r[i].fields, Keys.Id) == ids[i])
      && (r[i] == Null <==> forall j :: 0 <= j < |rows| ==> Lists.IdOf(rows[j]) != ids[i])
  {
    Lists.IndexByIdSpec(rows);
  }

  /** The casts `searchLocation` applies to a non-empty response throw: the
      `content` is neither null nor a list, or its first element is neither
      null nor a map. */
  predicate ContentCastFails(content: Value) {
    if content.Arr? then |content.items| > 0 && !IsMapOrNull(content.items[0])
    else !content.Null?
  }

  /** `searchLocation`: the first hit of a search, the empty map when there is
      none (or the first hit is null), None when the search or a cast throws. */
  function SearchLocation(query: Record, search: Record -> Option<Record>): (r: Option<Record>)
    ensures r.None? <==>
      search(query).None? || (|search(query).value| > 0 && ContentCastFails(Get(search(query).value, Keys.Content)))
    ensures r.Some? && |r.value| > 0 ==>
      var resp := search(query).value;
      |resp| > 0 && IsNonEmptyList(Get(resp, Keys.Content)) && Get(resp, Keys.Content).items[0] == Object(r.value)
    ensures search(query).Some? && |search(query).value| > 0 ==>
      var content := Get(search(query).value, Keys.Content);
      IsNonEmptyList(content) && content.items[0].Object? ==> r == Some(content.items[0].fields)
  {
    match search(query)
    case None => None
    case Some(resp) =>
      if |resp| == 0 then Some(map[])
      else
        var content := Get(resp, Keys.Content);
        if ContentCastFails(content) then None
        else if IsNonEmptyList(content) then Some(RecOf(content.items[0]))
        else Some(map[])
  }

  /** The location-index query for a school with the organisation's name and
      external id as its code. */
  function SchoolQuery(org: Record): (r: Record)
    ensures Keys.Filters in r && r[Keys.Filters].Object?
    ensures var filters := r[Keys.Filters].fields;
      && Get(filters, Keys.Name) == Get(org, Keys.OrgName)
      && Get(filters, Keys.Type) == Str(Keys.LocationTypeSchool)
      && Get(filters, Keys.Code) == Get(org, Keys.ExternalId)
  {
    map[Keys.Filters := Object(map[
      Keys.Name := Get(org, Keys.OrgName),
      Keys.Type := Str(Keys.LocationTypeSchool),
      Keys.Code := Get(org, Keys.ExternalId)])]
  }

  /** An affiliation the school inference searches for: a sub-organisation (not
      the root organisation) with both a name and an external id. */
  function SchoolCandidate(org: Record, rootOrgId: Option<string>): (r: bool)
    ensures IsBlank(StrAt(org, Keys.OrganisationId)) ==> !r
    ensures StrAt(org, Keys.OrganisationId).Some? && EqualsIgnoreCase(StrAt(org, Keys.OrganisationId).value, rootOrgId) ==> !r
    ensures r ==>
      var filters := RecOf(Get(SchoolQuery(org), Keys.Filters));
      !IsBlank(AsStr(Get(filters, Keys.Name))) && !IsBlank(AsStr(Get(filters, Keys.Code)))
    ensures (&& !IsBlank(StrAt(org, Keys.OrganisationId))
             && !EqualsIgnoreCase(StrAt(org, Keys.OrganisationId).value, rootOrgId)
             && !IsBlank(StrAt(org, Keys.OrgName))
             && !IsBlank(StrAt(org, Keys.ExternalId))) ==> r
  {
    var orgId := StrAt(org, Keys.OrganisationId);
    && !IsBlank(orgId)
    && !EqualsIgnoreCase(orgId.value, rootOrgId)
    && !IsBlank(StrAt(org, Keys.OrgName))
    && !IsBlank(StrAt(org, Keys.ExternalId))
  }

  /** What one affiliation adds to the locations: its non-empty search hit when
      it is a candidate, nothing otherwise, and None when its search throws. */
  function HitOf(org: Record, rootOrgId: Option<string>, search: Record -> Option<Record>): (r: Option<seq<Value>>)
    ensures !SchoolCandidate(org, rootOrgId) ==> r == Some([])
    ensures SchoolCandidate(org, rootOrgId) ==> (r.None? <==> SearchLocation(SchoolQuery(org), search).None?)
    ensures r.Some? ==> |r.value| <= 1
    ensures r.Some? && |r.value| == 1 ==>
      && SchoolCandidate(org, rootOrgId)
      && r.value[0].Object? && |r.value[0].fields| > 0
      && SearchLocation(SchoolQuery(org), search) == Some(r.value[0].fields)
    ensures (SchoolCandidate(org, rootOrgId) && SearchLocation(SchoolQuery(org), search).Some?
             && |SearchLocation(SchoolQuery(org), search).value| > 0)
      ==> r == Some([Object(SearchLocation(SchoolQuery(org), search).value)])
  {
    if !SchoolCandidate(org, rootOrgId) then Some([])
    else
      match SearchLocation(SchoolQuery(org), search)
      case None => None
      case Some(hit) => Some(if |hit| > 0 then [Object(hit)] else [])
  }

  /** A sub-organisation with an id, a name and an external id is searched, and
      contributes the search's non-empty hit, nothing for an empty one, and a
      failure when the search throws. */
  lemma CandidateIsSearched(org: Record, rootOrgId: Option<string>, search: Record -> Option<Record>)
    requires !IsBlank(StrAt(org, Keys.OrganisationId))
    requires !EqualsIgnoreCase(StrAt(org, Keys.OrganisationId).value, rootOrgId)
    requires !IsBlank(StrAt(org, Keys.OrgName)) && !IsBlank(StrAt(org, Keys.ExternalId))
    ensures HitOf(org, rootOrgId, search) ==
      match SearchLocation(SchoolQuery(org), search)
      case None => None
      case Some(hit) => Some(if |hit| > 0 then [Object(hit)] else [])
  {
  }

  /** The search hits, one per candidate in order, appended until a search throws. */
  function SchoolLoop(orgs: seq<Record>, rootOrgId: Option<string>, search: Record -> Option<Record>): (r: seq<Value>)
    ensures |r| <= |orgs|
    ensures forall j :: 0 <= j < |r| ==> IsSchoolHit(r[j], orgs, rootOrgId, search)
  {
    if |orgs| == 0 then []
    else
      match HitOf(orgs[0], rootOrgId, search)
      case None => []
      case Some(head) => head + SchoolLoop(orgs[1..], rootOrgId, search)
  }

  /** `v` is the non-empty first search hit for one candidate organisation. */
  ghost predicate IsSchoolHit(v: Value, orgs: seq<Record>, rootOrgId: Option<string>, search: Record -> Option<Record>) {
    exists i :: 0 <= i < |orgs| && SchoolCandidate(orgs[i], rootOrgId)
      && v.Object? && |v.fields| > 0 && SearchLocation(SchoolQuery(orgs[i]), search) == Some(v.fields)
  }

  /** The position of the first affiliation whose search throws, or the number
      of affiliations when none does. */
  function FirstFailure(orgs: seq<Record>, rootOrgId: Option<string>, search: Record -> Option<Record>): (k: nat)
    ensures k <= |orgs|
    ensures forall i :: 0 <= i < k ==> HitOf(orgs[i], rootOrgId, search).Some?
    ensures k < |orgs| ==> HitOf(orgs[k], rootOrgId, search).None?
  {
    if |orgs| == 0 || HitOf(orgs[0], rootOrgId, search).None? then 0
    else
      var rest := FirstFailure(orgs[1..], rootOrgId, search);
      assert forall i :: 1 <= i < |orgs| ==> orgs[1..][i - 1] == orgs[i];
      1 + rest
  }

  /** The parts of `parts`, joined in order. */
  function Concat(parts: seq<seq<Value>>): (r: seq<Value>)
    ensures |parts| > 0 ==> parts[0] <= r
    ensures forall v :: v in r <==> exists i :: 0 <= i < |parts| && v in parts[i]
  {
    if |parts| == 0 then [] else parts[0] + Concat(parts[1..])
  }

  /** What the first `k` affiliations add, each in its own position. */
  function HitsUpTo(orgs: seq<Record>, k: nat, rootOrgId: Option<string>, search: Record -> Option<Record>): seq<seq<Value>>
    requires k <= |orgs|
  {
    seq(k, i requires 0 <= i < k => HitOf(orgs[i], rootOrgId, search).GetOr([]))
  }

  /** The school loop is the affiliations' own hits, in affiliation order, cut
      off at the first search that throws. */
  lemma {:induction false} SchoolLoopIsTruncatedHits(orgs: seq<Record>, rootOrgId: Option<string>, search: Record -> Option<Record>)
    ensures SchoolLoop(orgs, rootOrgId, search) ==
      Concat(HitsUpTo(orgs, FirstFailure(orgs, rootOrgId, search), rootOrgId, search))
    decreases |orgs|
  {
    if |orgs| > 0 && HitOf(orgs[0], rootOrgId, search).Some? {
      var k := FirstFailure(orgs, rootOrgId, search);
      SchoolLoopIsTruncatedHits(orgs[1..], rootOrgId, search);
      HitsUpToShift(orgs, k, rootOrgId, search);
    }
  }

  /** Dropping the first affiliation drops the first part. */
  lemma HitsUpToShift(orgs: seq<Record>, k: nat, rootOrgId: Option<string>, search: Record -> Option<Record>)
    requires 0 < k <= |orgs|
    ensures Concat(HitsUpTo(orgs, k, rootOrgId, search)) ==
      HitOf(orgs[0], rootOrgId, search).GetOr([]) + Concat(HitsUpTo(orgs[1..], k - 1, rootOrgId, search))
  {
    var parts := HitsUpTo(orgs, k, rootOrgId, search);
    var tail := HitsUpTo(orgs[1..], k - 1, rootOrgId, search);
    forall i | 0 <= i < k - 1 ensures parts[1..][i] == tail[i] {
      assert orgs[1..][i] == orgs[i + 1];
    }
    assert parts[1..] == tail;
  }

  /** The school inference runs only for a user with more than one affiliation
      and at least three resolved locations. */
  predicate SchoolGuard(orgs: seq<Record>, userLocations: seq<Value>) {
    |orgs| > 1 && |userLocations| >= 3
  }

  /** `addSchoolLocation`: the resolved locations with the school hits appended;
      a search that throws ends the loop, and what was appended so far stays. */
  function AddSchoolLocation(
    rootOrgId: Option<string>, orgs: seq<Record>, userLocations: seq<Value>,
    search: Record -> Option<Record>): (r: seq<Value>)
    ensures !SchoolGuard(orgs, userLocations) ==> r == userLocations
    ensures userLocations <= r
    ensures |r| <= |userLocations| + |orgs|
    ensures forall j :: |userLocations| <= j < |r| ==> IsSchoolHit(r[j], orgs, rootOrgId, search)
    ensures SchoolGuard(orgs, userLocations) ==>
      r == userLocations + Concat(HitsUpTo(orgs, FirstFailure(orgs, rootOrgId, search), rootOrgId, search))
  {
    SchoolLoopIsTruncatedHits(orgs, rootOrgId, search);
    if SchoolGuard(orgs, userLocations) then userLocations + SchoolLoop(orgs, rootOrgId, search)
    else userLocations
  }

  /** When no search throws, every candidate's non-empty hit is appended, in
      affiliation order. */
  lemma AllHitsAppended(
    rootOrgId: Option<string>, orgs: seq<Record>, userLocations: seq<Value>,
    search: Record -> Option<Record>)
    requires SchoolGuard(orgs, userLocations)
    requires forall i :: 0 <= i < |orgs| ==> HitOf(orgs[i], rootOrgId, search).Some?
    ensures AddSchoolLocation(rootOrgId, orgs, userLocations, search) ==
      userLocations + Concat(HitsUpTo(orgs, |orgs|, rootOrgId, search))
  {
  }
}
