/** `fetchUserOrgList`, `fetchAllOrgById`, `fetchAllLocationsById` and
    `updateUserOrgInfo`: the user's organisation memberships, with soft-deleted
    rows dropped, association provenance decoded and, on demand, organisation
    and location detail merged in. */
module Orgs {
  import opened Wrappers
  import opened Text
  import opened Json
  import Keys
  import opened Env
  import Lists
  import Locations

  /** A membership row survives unless its `isDeleted` flag is set. */
  predicate IsKept(row: Record) {
    Get(row, Keys.IsDeleted) != Bool(true)
  }

  /** The three keys the association decoding adds. */
  const AssociationKeys: set<string> := {Keys.IsSso, Keys.IsSelfDeclaration, Keys.IsSystemUpload}

  /** A row with an association type gets the three decoded mechanism flags;
      a row without one is left as it is. */
  function AnnotateAssociation(row: Record, decode: int -> AssociationFlags): (r: Record)
    ensures !Get(row, Keys.AssociationType).Num? ==> r == row
    ensures Get(row, Keys.AssociationType).Num? ==>
      var f := decode(Get(row, Keys.AssociationType).n);
      && r.Keys == row.Keys + AssociationKeys
      && r[Keys.IsSso] == Bool(f.sso)
      && r[Keys.IsSelfDeclaration] == Bool(f.selfDeclaration)
      && r[Keys.IsSystemUpload] == Bool(f.systemUpload)
    ensures forall k :: k in row && k !in AssociationKeys ==> k in r && r[k] == row[k]
  {
    match Get(row, Keys.AssociationType)
    case Num(t) =>
      var f := decode(t);
      row[Keys.IsSso := Bool(f.sso)][Keys.IsSelfDeclaration := Bool(f.selfDeclaration)][Keys.IsSystemUpload := Bool(f.systemUpload)]
    case _ => row
  }

  /** The positions of the rows that survive the soft-delete filter: increasing,
      and containing every surviving position. */
  function KeptIndices(rows: seq<Record>): (ix: seq<nat>)
    ensures forall j :: 0 <= j < |ix| ==> ix[j] < |rows| && IsKept(rows[ix[j]])
    ensures forall j, k :: 0 <= j < k < |ix| ==> ix[j] < ix[k]
    ensures forall i :: 0 <= i < |rows| && IsKept(rows[i]) ==> i in ix
  {
    if |rows| == 0 then []
    else
      var p := KeptIndices(rows[..|rows| - 1]);
      if IsKept(rows[|rows| - 1]) then p + [|rows| - 1] else p
  }

  /** `fetchUserOrgList`: exactly the surviving rows, in their original order,
      each annotated with its association flags. */
  function FetchUserOrgList(rows: seq<Record>, decode: int -> AssociationFlags): (r: seq<Record>)
    ensures |r| == |KeptIndices(rows)|
    ensures forall j :: 0 <= j < |r| ==> r[j] == AnnotateAssociation(rows[KeptIndices(rows)[j]], decode)
    ensures forall j :: 0 <= j < |r| ==> IsKept(r[j])
  {
    if |rows| == 0 then []
    else
      var p := FetchUserOrgList(rows[..|rows| - 1], decode);
      var last := rows[|rows| - 1];
      if IsKept(last) then p + [AnnotateAssociation(last, decode)] else p
  }

  /** No soft-deleted row survives and no surviving row is lost: the output is
      as long as the number of rows whose flag is null or false. */
  lemma {:induction false} FetchUserOrgListCount(rows: seq<Record>, decode: int -> AssociationFlags)
    ensures |FetchUserOrgList(rows, decode)| == |set i | 0 <= i < |rows| && IsKept(rows[i])|
  {
    var ix := KeptIndices(rows);
    var s := set i | 0 <= i < |rows| && IsKept(rows[i]);
    assert s == set j | 0 <= j < |ix| :: ix[j];
    DistinctCard(ix);
  }

  /** A strictly increasing sequence has as many elements as its range. */
  lemma {:induction false} DistinctCard(ix: seq<nat>)
    requires forall j, k :: 0 <= j < k < |ix| ==> ix[j] < ix[k]
    ensures |set j | 0 <= j < |ix| :: ix[j]| == |ix|
  {
    if |ix| > 0 {
      var init := ix[..|ix| - 1];
      DistinctCard(init);
      var s := set j | 0 <= j < |init| :: init[j];
      assert (set j | 0 <= j < |ix| :: ix[j]) == s + {ix[|ix| - 1]};
      assert ix[|ix| - 1] !in s;
    }
  }

  /** The organisation ids the affiliation rows reference, in row order. */
  function OrgIdsOf(userOrgs: seq<Record>): (ids: seq<Value>)
    ensures |ids| == |userOrgs|
    ensures forall i :: 0 <= i < |userOrgs| ==> ids[i] == Get(userOrgs[i], Keys.OrganisationId)
  {
    seq(|userOrgs|, i requires 0 <= i < |userOrgs| => Get(userOrgs[i], Keys.OrganisationId))
  }

  /** `fetchAllOrgById`: one batch lookup over the distinct organisation ids,
      indexed by id; None when the index cannot be built. */
  function FetchAllOrgById(userOrgs: seq<Record>, orgsByIds: seq<Value> -> seq<Value>): (r: Option<map<Value, Record>>)
    ensures |userOrgs| == 0 ==> r == Some(map[])
    ensures |userOrgs| > 0 ==>
      var ids := Lists.Distinct(OrgIdsOf(userOrgs));
      && (forall i :: 0 <= i < |userOrgs| ==> Get(userOrgs[i], Keys.OrganisationId) in ids)
      && (forall i, j :: 0 <= i < j < |ids| ==> ids[i] != ids[j])
      && r == if |orgsByIds(ids)| == 0 then Some(map[]) else Lists.IndexById(orgsByIds(ids))
  {
    var ids := Lists.Distinct(OrgIdsOf(userOrgs));
    if |ids| == 0 then Some(map[])
    else
      var rows := orgsByIds(ids);
      if |rows| == 0 then Some(map[]) else Lists.IndexById(rows)
  }

  /** The location ids an organisation declares, once `PrepOrgLocations` has
      parsed them: the non-blank ones. */
  function DeclaredLocationIds(org: Record): set<string> {
    var ids := ListOf(Get(org, Keys.LocationIds));
    set i | 0 <= i < |ids| && !IsBlank(AsStr(ids[i])) :: ids[i].s
  }

  /** One organisation in `fetchAllLocationsById`: a non-blank `orgLocation`
      string is parsed and replaced by the parsed list, and `locationIds` is set
      to the ids of its entries; a parse failure or a null entry leaves
      `orgLocation` as it was and `locationIds` null. */
  function PrepOrgLocations(org: Record, parse: string -> Option<Value>): (r: Record)
    ensures r.Keys == org.Keys + {Keys.LocationIds}
    ensures forall k :: k in org && k != Keys.OrgLocation && k != Keys.LocationIds ==> r[k] == org[k]
    ensures r[Keys.LocationIds] == Null || r[Keys.LocationIds].Arr?
    ensures IsBlank(StrAt(org, Keys.OrgLocation)) ==> r == org[Keys.LocationIds := Null]
    ensures !IsBlank(StrAt(org, Keys.OrgLocation)) ==>
      var parsed := ReadAsMapList(parse, StrAt(org, Keys.OrgLocation).value);
      if parsed.None? then r == org[Keys.LocationIds := Null]
      else
        var list := parsed.value;
        if !IsNonEmptyList(list) then r == org[Keys.OrgLocation := Arr([])][Keys.LocationIds := Null]
        else if forall i :: 0 <= i < |list.items| ==> list.items[i].Object? then
          && r[Keys.OrgLocation] == list
          && |ListOf(r[Keys.LocationIds])| == |list.items|
          && forall i :: 0 <= i < |list.items| ==> ListOf(r[Keys.LocationIds])[i] == Get(list.items[i].fields, Keys.Id)
        else r == org[Keys.LocationIds := Null]
  {
    var raw := StrAt(org, Keys.OrgLocation);
    if IsBlank(raw) then org[Keys.LocationIds := Null]
    else
      match ReadAsMapList(parse, raw.value)
      case None => org[Keys.LocationIds := Null]
      case Some(list) =>
        if !IsNonEmptyList(list) then org[Keys.OrgLocation := Arr([])][Keys.LocationIds := Null]
        else
          match IdsOf(list.items, Keys.Id)
          case None => org[Keys.LocationIds := Null]
          case Some(ids) => org[Keys.OrgLocation := list][Keys.LocationIds := Arr(ids)]
  }

  /** The union of the location ids all organisations declare. */
  function LocationIdSet(orgInfo: map<Value, Record>): set<string> {
    set k, id | k in orgInfo && id in DeclaredLocationIds(orgInfo[k]) :: id
  }

  /** `fetchAllLocationsById`: every organisation prepared as above, and one
      batch lookup over the union of their non-blank location ids, indexed by
      id; nothing is looked up when there are none. */
  function FetchAllLocationsById(
    orgInfo: map<Value, Record>, parse: string -> Option<Value>,
    locationsByIdSet: set<string> -> seq<Value>): (r: Option<(map<Value, Record>, map<Value, Record>)>)
    ensures r.Some? ==> r.value.0.Keys == orgInfo.Keys
    ensures r.Some? ==> forall k :: k in orgInfo ==> r.value.0[k] == PrepOrgLocations(orgInfo[k], parse)
    ensures var ids := LocationIdSet(map k | k in orgInfo :: PrepOrgLocations(orgInfo[k], parse));
      && (|ids| == 0 ==> r.Some? && r.value.1 == map[])
      && (|ids| > 0 ==> (r.Some? <==> Lists.IndexById(locationsByIdSet(ids)).Some?))
      && (|ids| > 0 && r.Some? ==> r.value.1 == Lists.IndexById(locationsByIdSet(ids)).value)
  {
    var infos := map k | k in orgInfo :: PrepOrgLocations(orgInfo[k], parse);
    var ids := LocationIdSet(infos);
    if |ids| == 0 then Some((infos, map[]))
    else
      match Lists.IndexById(locationsByIdSet(ids))
      case None => None
      case Some(li) => Some((infos, li))
  }

  /** The keys the organisation enrichment may write on a membership row. */
  const EnrichmentKeys: set<string> :=
    {Keys.OrgName, Keys.Channel, Keys.HashTagId, Keys.LocationIds, Keys.OrgLocation,
     Keys.ExternalId, Keys.IsSchool, Keys.Locations}

  /** The six organisation attributes copied onto a membership row. */
  const CopiedKeys: set<string> :=
    {Keys.OrgName, Keys.Channel, Keys.HashTagId, Keys.LocationIds, Keys.OrgLocation, Keys.ExternalId}

  /** The copied attributes the location preparation does not rewrite. */
  const OwnCopiedKeys: set<string> := {Keys.OrgName, Keys.Channel, Keys.HashTagId, Keys.ExternalId}

  function CopyOrgFields(usrOrg: Record, info: Record): (r: Record)
    ensures forall k :: k in r <==> k in usrOrg || k in CopiedKeys
    ensures forall k :: k in CopiedKeys ==> r[k] == Get(info, k)
    ensures forall k :: k in usrOrg && k !in CopiedKeys ==> r[k] == usrOrg[k]
  {
    usrOrg[Keys.OrgName := Get(info, Keys.OrgName)]
          [Keys.Channel := Get(info, Keys.Channel)]
          [Keys.HashTagId := Get(info, Keys.HashTagId)]
          [Keys.LocationIds := Get(info, Keys.LocationIds)]
          [Keys.OrgLocation := Get(info, Keys.OrgLocation)]
          [Keys.ExternalId := Get(info, Keys.ExternalId)]
  }

  /** The `isSchool` flag, written only when the organisation has a type code. */
  function MarkSchool(row: Record, info: Record, schoolOrgType: int): (r: Record)
    ensures var orgType := Get(info, Keys.OrganisationType);
      Get(r, Keys.IsSchool) == if orgType.Num? then Bool(orgType.n == schoolOrgType) else Get(row, Keys.IsSchool)
    ensures forall k :: k in r <==> k in row || (k == Keys.IsSchool && k in r)
    ensures forall k :: k in row && k != Keys.IsSchool ==> r[k] == row[k]
  {
    match Get(info, Keys.OrganisationType)
    case Num(t) => row[Keys.IsSchool := Bool(t == schoolOrgType)]
    case _ => row
  }

  /** The positional location records, attached only when any were resolved. */
  function AttachLocations(row: Record, info: Record, locationInfo: map<Value, Record>): (r: Record)
    ensures Get(r, Keys.Locations) == if |locationInfo| > 0 then OrgLocationRecords(info, locationInfo) else Get(row, Keys.Locations)
    ensures forall k :: k in r <==> k in row || (k == Keys.Locations && k in r)
    ensures forall k :: k in row && k != Keys.Locations ==> r[k] == row[k]
  {
    if |locationInfo| > 0 then row[Keys.Locations := OrgLocationRecords(info, locationInfo)] else row
  }

  /** The location records of an organisation's location ids, positionally. */
  function OrgLocationRecords(info: Record, locationInfo: map<Value, Record>): Value {
    Arr(Locations.PrepLocationFields(ListOf(Get(info, Keys.LocationIds)), locationInfo))
  }

  /** The organisation a membership row references was found, with attributes. */
  predicate HasOrgInfo(usrOrg: Record, orgInfo: map<Value, Record>) {
    var key := Get(usrOrg, Keys.OrganisationId);
    key in orgInfo && |orgInfo[key]| > 0
  }

  function OrgInfoOf(usrOrg: Record, orgInfo: map<Value, Record>): Record
    requires HasOrgInfo(usrOrg, orgInfo)
  {
    orgInfo[Get(usrOrg, Keys.OrganisationId)]
  }

  /** The school flag and the location records are not copied attributes,
      and a key outside the enrichment keys is none of the written ones. */
  lemma EnrichmentKeysDistinct()
    ensures Keys.IsSchool !in CopiedKeys && Keys.Locations !in CopiedKeys && Keys.IsSchool != Keys.Locations
    ensures forall k :: k !in EnrichmentKeys ==> k !in CopiedKeys && k != Keys.IsSchool && k != Keys.Locations
  {
  }

  /** A membership row merged with its organisation's attributes: the six
      copied attributes, the `isSchool` flag when the organisation has a type
      code, and the positional location records when any were resolved. */
  function MergeOrgInfo(usrOrg: Record, info: Record, locationInfo: map<Value, Record>, schoolOrgType: int): (r: Record)
    ensures forall k :: k in CopiedKeys ==> Get(r, k) == Get(info, k)
    ensures var orgType := Get(info, Keys.OrganisationType);
      Get(r, Keys.IsSchool) == if orgType.Num? then Bool(orgType.n == schoolOrgType) else Get(usrOrg, Keys.IsSchool)
    ensures Get(r, Keys.Locations) == if |locationInfo| > 0 then OrgLocationRecords(info, locationInfo) else Get(usrOrg, Keys.Locations)
    ensures forall k :: k in usrOrg ==> k in r
    ensures forall k :: k in usrOrg && k !in EnrichmentKeys ==> r[k] == usrOrg[k]
  {
    EnrichmentKeysDistinct();
    AttachLocations(MarkSchool(CopyOrgFields(usrOrg, info), info, schoolOrgType), info, locationInfo)
  }

  /** One row of `prepUserOrgInfoWithAdditionalData`: a row whose organisation
      was not found is left as it is; otherwise it is merged as above. */
  function EnrichOrg(
    usrOrg: Record, orgInfo: map<Value, Record>, locationInfo: map<Value, Record>,
    schoolOrgType: int): (r: Record)
    ensures !HasOrgInfo(usrOrg, orgInfo) ==> r == usrOrg
    ensures HasOrgInfo(usrOrg, orgInfo) ==> r == MergeOrgInfo(usrOrg, OrgInfoOf(usrOrg, orgInfo), locationInfo, schoolOrgType)
    ensures forall k :: k in usrOrg ==> k in r
    ensures forall k :: k in usrOrg && k !in EnrichmentKeys ==> r[k] == usrOrg[k]
  {
    if !HasOrgInfo(usrOrg, orgInfo) then usrOrg
    else MergeOrgInfo(usrOrg, OrgInfoOf(usrOrg, orgInfo), locationInfo, schoolOrgType)
  }

  /** One row: a row whose organisation is not indexed is left alone, and one
      whose organisation is indexed carries that organisation's own name,
      channel, hashtag and external id. */
  lemma EnrichedRowKeepsOrgAttributes(
    usrOrg: Record, orgInfo: map<Value, Record>, infos: map<Value, Record>,
    locationInfo: map<Value, Record>, parse: string -> Option<Value>, schoolOrgType: int)
    requires infos.Keys == orgInfo.Keys
    requires forall k :: k in orgInfo ==> infos[k] == PrepOrgLocations(orgInfo[k], parse)
    ensures var key := Get(usrOrg, Keys.OrganisationId);
      && (key !in orgInfo ==> EnrichOrg(usrOrg, infos, locationInfo, schoolOrgType) == usrOrg)
      && (key in orgInfo ==> forall k :: k in OwnCopiedKeys ==>
            Get(EnrichOrg(usrOrg, infos, locationInfo, schoolOrgType), k) == Get(orgInfo[key], k))
  {
    var key := Get(usrOrg, Keys.OrganisationId);
    if key in orgInfo {
      var prepped := PrepOrgLocations(orgInfo[key], parse);
      assert Keys.LocationIds in prepped;
      PrepKeepsOwnAttributes(orgInfo[key], parse);
      OwnCopiedAreCopied();
    }
  }

  /** The copied attributes that are not the organisation's location fields. */
  lemma OwnCopiedAreCopied()
    ensures forall k :: k in OwnCopiedKeys ==> k in CopiedKeys && k != Keys.LocationIds && k != Keys.OrgLocation
  {
  }

  /** Location preparation leaves the name, channel, hashtag and external id alone. */
  lemma PrepKeepsOwnAttributes(org: Record, parse: string -> Option<Value>)
    ensures forall k :: k in OwnCopiedKeys ==> Get(PrepOrgLocations(org, parse), k) == Get(org, k)
  {
    OwnCopiedAreCopied();
  }

  lemma EnrichedRowsKeepOrgAttributes(
    userOrgs: seq<Record>, orgInfo: map<Value, Record>, infos: map<Value, Record>,
    locationInfo: map<Value, Record>, parse: string -> Option<Value>, schoolOrgType: int)
    requires infos.Keys == orgInfo.Keys
    requires forall k :: k in orgInfo ==> infos[k] == PrepOrgLocations(orgInfo[k], parse)
    ensures forall i :: 0 <= i < |userOrgs| ==>
      var key := Get(userOrgs[i], Keys.OrganisationId);
      && (key !in orgInfo ==> EnrichOrg(userOrgs[i], infos, locationInfo, schoolOrgType) == userOrgs[i])
      && (key in orgInfo ==> forall k :: k in OwnCopiedKeys ==>
            Get(EnrichOrg(userOrgs[i], infos, locationInfo, schoolOrgType), k) == Get(orgInfo[key], k))
  {
    forall i | 0 <= i < |userOrgs| {
      EnrichedRowKeepsOrgAttributes(userOrgs[i], orgInfo, infos, locationInfo, parse, schoolOrgType);
    }
  }

  /** Every row enriched against the same indices, in order; no row loses a key. */
  function EnrichAll(
    userOrgs: seq<Record>, orgInfo: map<Value, Record>, locationInfo: map<Value, Record>,
    schoolOrgType: int): (r: seq<Record>)
    ensures |r| == |userOrgs|
    ensures forall i :: 0 <= i < |userOrgs| ==> r[i] == EnrichOrg(userOrgs[i], orgInfo, locationInfo, schoolOrgType)
    ensures forall i :: 0 <= i < |userOrgs| ==> userOrgs[i].Keys <= r[i].Keys
    ensures forall i, k :: 0 <= i < |userOrgs| && k in userOrgs[i] && k !in EnrichmentKeys ==> r[i][k] == userOrgs[i][k]
  {
    seq(|userOrgs|, i requires 0 <= i < |userOrgs| => EnrichOrg(userOrgs[i], orgInfo, locationInfo, schoolOrgType))
  }

  /** `updateUserOrgInfo`: every membership row enriched in place, in order;
      None when an index of organisations or locations cannot be built. The
      enrichment only adds: every key a row had is still there, and keys it
      does not write keep their values. */
  function UpdateUserOrgInfo(userOrgs: seq<Record>, c: Collaborators, schoolOrgType: int): (r: Option<seq<Record>>)
    ensures r.Some? ==> |r.value| == |userOrgs|
    ensures r.Some? ==> forall i :: 0 <= i < |userOrgs| ==> userOrgs[i].Keys <= r.value[i].Keys
    ensures r.Some? ==> forall i, k :: 0 <= i < |userOrgs| && k in userOrgs[i] && k !in EnrichmentKeys ==>
      r.value[i][k] == userOrgs[i][k]
    ensures |userOrgs| == 0 ==> r == Some([])
    ensures r.None? <==>
      var orgInfo := FetchAllOrgById(userOrgs, c.orgsByIds);
      orgInfo.None? || FetchAllLocationsById(orgInfo.value, c.parseJson, c.locationsByIdSet).None?
    ensures r.Some? ==>
      var orgInfo := FetchAllOrgById(userOrgs, c.orgsByIds).value;
      var located := FetchAllLocationsById(orgInfo, c.parseJson, c.locationsByIdSet).value;
      forall i :: 0 <= i < |userOrgs| ==> r.value[i] == EnrichOrg(userOrgs[i], located.0, located.1, schoolOrgType)
    ensures r.Some? ==>
      var orgInfo := FetchAllOrgById(userOrgs, c.orgsByIds).value;
      forall i :: 0 <= i < |userOrgs| ==>
        var key := Get(userOrgs[i], Keys.OrganisationId);
        && (key !in orgInfo ==> r.value[i] == userOrgs[i])
        && (key in orgInfo ==> forall k :: k in OwnCopiedKeys ==> Get(r.value[i], k) == Get(orgInfo[key], k))
  {
    match FetchAllOrgById(userOrgs, c.orgsByIds)
    case None => None
    case Some(orgInfo) =>
      match FetchAllLocationsById(orgInfo, c.parseJson, c.locationsByIdSet)
      case None => None
      case Some((infos, locationInfo)) =>
        EnrichedRowsKeepOrgAttributes(userOrgs, orgInfo, infos, locationInfo, c.parseJson, schoolOrgType);
        Some(EnrichAll(userOrgs, infos, locationInfo, schoolOrgType))
  }
}
