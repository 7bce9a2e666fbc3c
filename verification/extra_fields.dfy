/** The optional sections a profile read adds on request, driven by the
    `fields` parameter (`addExtraFieldsInUserProfileResponse`). */
module ExtraFields {
  import opened Wrappers
  import opened Text
  import opened Json
  import Keys
  import opened Env
  import Orgs
  import Locations
  import ExternalIds
  import Shaping

  /** The keys the optional sections may write or remove. */
  const ExtraKeys: set<string> :=
    {Keys.LastLoginTime, Keys.Topics, Keys.Organisations, Keys.RoleList, Keys.UserLocations,
     Keys.LocationIds, Keys.ProfileLocation, Keys.Declarations, Keys.ExternalIds}

  /** A section is requested when its name occurs anywhere in `fields`. */
  predicate Requested(fields: string, section: string) {
    Contains(fields, section)
  }

  /** Last login time reset to 0, and an empty topic set when topics are asked for. */
  function StampLoginAndTopics(result: Record, fields: string): (r: Record)
    ensures Get(r, Keys.LastLoginTime) == Num(0)
    ensures Requested(fields, Keys.Topic) ==> Get(r, Keys.Topics) == Arr([])
    ensures forall k :: k != Keys.LastLoginTime && (k != Keys.Topics || !Requested(fields, Keys.Topic)) ==>
      Get(r, k) == Get(result, k)
  {
    var stamped := result[Keys.LastLoginTime := Num(0)];
    if Requested(fields, Keys.Topic) then stamped[Keys.Topics := Arr([])] else stamped
  }

  /** The profile's membership rows as `updateUserOrgInfo` enriches them. */
  function EnrichedOrgs(result: Record, c: Collaborators, schoolOrgType: int): Option<seq<Record>> {
    Orgs.UpdateUserOrgInfo(Records(ListOf(Get(result, Keys.Organisations))), c, schoolOrgType)
  }

  /** The organisation section runs: organisations are asked for and the
      profile holds a membership list. */
  predicate EnrichesOrgs(result: Record, fields: string) {
    Requested(fields, Keys.Organisations) && Get(result, Keys.Organisations).Arr?
  }

  /** The membership rows enriched in place when organisations are asked for;
      a store failure while indexing them is fatal. A missing list is left
      alone. */
  function EnrichOrganisations(result: Record, fields: string, c: Collaborators, schoolOrgType: int): (r: Option<Record>)
    ensures !Requested(fields, Keys.Organisations) || !Get(result, Keys.Organisations).Arr? ==> r == Some(result)
    ensures Requested(fields, Keys.Organisations) && Get(result, Keys.Organisations).Arr? ==>
      var rows := Records(ListOf(Get(result, Keys.Organisations)));
      var enriched := Orgs.UpdateUserOrgInfo(rows, c, schoolOrgType);
      && (enriched.None? ==> r.None?)
      && (enriched.Some? ==> r.Some? && Get(r.value, Keys.Organisations) == Arr(Objects(enriched.value)))
    ensures r.Some? ==> forall k :: k != Keys.Organisations ==> Get(r.value, k) == Get(result, k)
  {
    if !Requested(fields, Keys.Organisations) || !Get(result, Keys.Organisations).Arr? then Some(result)
    else
      match Orgs.UpdateUserOrgInfo(Records(ListOf(Get(result, Keys.Organisations))), c, schoolOrgType)
      case None => None
      case Some(enriched) => Some(result[Keys.Organisations := Arr(Objects(enriched))])
  }

  /** The readable role catalogue when roles are asked for. */
  function AttachRoles(result: Record, fields: string, readRoles: Value): (r: Record)
    ensures Requested(fields, Keys.Roles) ==> Get(r, Keys.RoleList) == readRoles
    ensures forall k :: k != Keys.RoleList || !Requested(fields, Keys.Roles) ==> Get(r, k) == Get(result, k)
  {
    if Requested(fields, Keys.Roles) then result[Keys.RoleList := readRoles] else result
  }

  /** The locations stored for the profile's location ids; nothing when the
      profile has no location entries. */
  function ResolvedLocations(result: Record, lookup: seq<Value> -> seq<Value>): (r: seq<Value>)
    requires forall i :: 0 <= i < |ListOf(Get(result, Keys.ProfileLocation))| ==> ListOf(Get(result, Keys.ProfileLocation))[i].Object?
    ensures var entries := ListOf(Get(result, Keys.ProfileLocation));
      |entries| == 0 ==> r == []
    ensures var entries := ListOf(Get(result, Keys.ProfileLocation));
      |entries| > 0 ==> IdsOf(entries, Keys.Id).Some? && r == lookup(IdsOf(entries, Keys.Id).value)
  {
    var entries := ListOf(Get(result, Keys.ProfileLocation));
    var ids := IdsOf(entries, Keys.Id).value;
    Locations.GetUserLocations(ids, lookup)
  }

  /** Every entry of the profile location list is a map (a null one makes the
      id extraction throw, uncaught). */
  predicate LocationEntriesWellFormed(result: Record) {
    forall i :: 0 <= i < |ListOf(Get(result, Keys.ProfileLocation))| ==> ListOf(Get(result, Keys.ProfileLocation))[i].Object?
  }

  /** The located entries written as `userLocations`, followed by the schools
      found for the memberships when organisations are asked for too; the raw
      location ids and profile locations are then removed. */
  function WriteUserLocations(result: Record, fields: string, found: seq<Value>, search: Record -> Option<Record>): (r: Record)
    ensures Keys.UserLocations in r && r[Keys.UserLocations].Arr? && found <= r[Keys.UserLocations].items
    ensures !Requested(fields, Keys.Organisations) ==> r[Keys.UserLocations] == Arr(found)
    ensures Requested(fields, Keys.Organisations) ==>
      r[Keys.UserLocations] == Arr(Locations.AddSchoolLocation(
        StrAt(result, Keys.RootOrgId), Records(ListOf(Get(result, Keys.Organisations))), found, search))
    ensures Keys.LocationIds !in r && Keys.ProfileLocation !in r
    ensures forall k :: k != Keys.UserLocations && k != Keys.LocationIds && k != Keys.ProfileLocation ==>
      Get(r, k) == Get(result, k)
  {
    var all :=
      if Requested(fields, Keys.Organisations) then
        Locations.AddSchoolLocation(StrAt(result, Keys.RootOrgId), Records(ListOf(Get(result, Keys.Organisations))), found, search)
      else found;
    result[Keys.UserLocations := Arr(all)] - {Keys.LocationIds, Keys.ProfileLocation}
  }

  /** The locations section. Without entries, or when none of them is found,
      nothing changes; a null entry is fatal. */
  function AttachUserLocations(result: Record, fields: string, c: Collaborators): (r: Option<Record>)
    ensures !Requested(fields, Keys.Locations) ==> r == Some(result)
    ensures Requested(fields, Keys.Locations) ==> (r.None? <==> !LocationEntriesWellFormed(result))
    ensures Requested(fields, Keys.Locations) && LocationEntriesWellFormed(result) ==>
      var found := ResolvedLocations(result, c.locationsByIds);
      if |found| == 0 then r == Some(result)
      else r == Some(WriteUserLocations(result, fields, found, c.searchLocations))
  {
    if !Requested(fields, Keys.Locations) then Some(result)
    else if !LocationEntriesWellFormed(result) then None
    else
      var found := ResolvedLocations(result, c.locationsByIds);
      if |found| == 0 then Some(result)
      else Some(WriteUserLocations(result, fields, found, c.searchLocations))
  }

  /** The user's declarations when declarations are asked for. */
  function AttachDeclarations(result: Record, fields: string, c: Collaborators): (r: Record)
    ensures Requested(fields, Keys.Declarations) ==>
      Get(r, Keys.Declarations) == Arr(Objects(Shaping.FetchUserDeclarations(c.declarationRows(Get(result, Keys.Id)), c.decrypt)))
    ensures forall k :: k != Keys.Declarations || !Requested(fields, Keys.Declarations) ==> Get(r, k) == Get(result, k)
  {
    if Requested(fields, Keys.Declarations) then
      result[Keys.Declarations := Arr(Objects(Shaping.FetchUserDeclarations(c.declarationRows(Get(result, Keys.Id)), c.decrypt)))]
    else result
  }

  /** The external ids, without declarations merged in, when they are asked
      for and the response does not hold any yet. */
  function AttachExternalIds(result: Record, fields: string, c: Collaborators): (r: Record)
    ensures Requested(fields, Keys.ExternalIds) && |ListOf(Get(result, Keys.ExternalIds))| == 0 ==>
      Get(r, Keys.ExternalIds) == Arr(Objects(ExternalIds.FetchUserExternalIdentity(Get(result, Keys.Id), result, false, c)))
    ensures !Requested(fields, Keys.ExternalIds) || |ListOf(Get(result, Keys.ExternalIds))| > 0 ==> r == result
    ensures forall k :: k != Keys.ExternalIds ==> Get(r, k) == Get(result, k)
  {
    if |ListOf(Get(result, Keys.ExternalIds))| == 0 && Requested(fields, Keys.ExternalIds) then
      result[Keys.ExternalIds := Arr(Objects(ExternalIds.FetchUserExternalIdentity(Get(result, Keys.Id), result, false, c)))]
    else result
  }

  /** The sections up to the role catalogue: login time, topics,
      organisations, roles. */
  function EarlySections(result: Record, fields: string, c: Collaborators, s: Snapshot): (r: Option<Record>)
    ensures r.None? <==> EnrichesOrgs(result, fields) && EnrichedOrgs(result, c, s.schoolOrgType).None?
    ensures r.Some? ==> Get(r.value, Keys.LastLoginTime) == Num(0)
    ensures r.Some? && Requested(fields, Keys.Topic) ==> Get(r.value, Keys.Topics) == Arr([])
    ensures r.Some? && Requested(fields, Keys.Roles) ==> Get(r.value, Keys.RoleList) == s.readRoles
    ensures r.Some? && EnrichesOrgs(result, fields) ==>
      Get(r.value, Keys.Organisations) == Arr(Objects(EnrichedOrgs(result, c, s.schoolOrgType).value))
    ensures r.Some? && !EnrichesOrgs(result, fields) ==> Get(r.value, Keys.Organisations) == Get(result, Keys.Organisations)
    ensures r.Some? ==> forall k :: k != Keys.LastLoginTime && k != Keys.Topics && k != Keys.Organisations && k != Keys.RoleList ==>
      Get(r.value, k) == Get(result, k)
  {
    var r1 := StampLoginAndTopics(result, fields);
    assert Get(r1, Keys.Organisations) == Get(result, Keys.Organisations);
    var r2 :- EnrichOrganisations(r1, fields, c, s.schoolOrgType);
    Some(AttachRoles(r2, fields, s.readRoles))
  }

  /** The three keys the locations section writes or removes. */
  predicate LocationKeysKept(r: Record, result: Record) {
    && Get(r, Keys.UserLocations) == Get(result, Keys.UserLocations)
    && Get(r, Keys.LocationIds) == Get(result, Keys.LocationIds)
    && Get(r, Keys.ProfileLocation) == Get(result, Keys.ProfileLocation)
  }

  /** The locations section's outcome for a request that names it: with no
      location found the three location keys are kept; otherwise
      `userLocations` holds the found locations, followed by the schools of the
      memberships `r` returns when organisations are asked for too, and the
      raw keys are gone. */
  predicate LocationsWritten(r: Record, result: Record, fields: string, c: Collaborators)
    requires LocationEntriesWellFormed(result)
  {
    var found := ResolvedLocations(result, c.locationsByIds);
    && (|found| == 0 ==> LocationKeysKept(r, result))
    && (|found| > 0 ==>
          && Get(r, Keys.UserLocations) == Arr(
               if Requested(fields, Keys.Organisations) then
                 Locations.AddSchoolLocation(StrAt(r, Keys.RootOrgId), Records(ListOf(Get(r, Keys.Organisations))), found, c.searchLocations)
               else found)
          && Keys.LocationIds !in r && Keys.ProfileLocation !in r)
  }

  /** The profile's declarations, as the declarations section reads them. */
  function DeclarationsOf(result: Record, c: Collaborators): Value {
    Arr(Objects(Shaping.FetchUserDeclarations(c.declarationRows(Get(result, Keys.Id)), c.decrypt)))
  }

  /** The external ids section runs: they are asked for and none are present. */
  predicate FetchesExternalIds(result: Record, fields: string) {
    Requested(fields, Keys.ExternalIds) && |ListOf(Get(result, Keys.ExternalIds))| == 0
  }

  /** The profile's external ids, without declarations merged in. */
  function ExternalIdsOf(result: Record, c: Collaborators): Value {
    Arr(Objects(ExternalIds.FetchUserExternalIdentity(Get(result, Keys.Id), result, false, c)))
  }

  /** The declaration and external-id sections: only those two keys change. */
  function DeclarationsAndExternalIds(r4: Record, fields: string, c: Collaborators): (r: Record)
    ensures Get(r, Keys.Declarations) ==
              (if Requested(fields, Keys.Declarations) then DeclarationsOf(r4, c) else Get(r4, Keys.Declarations))
    ensures Get(r, Keys.ExternalIds) ==
              (if FetchesExternalIds(r4, fields) then ExternalIdsOf(r4, c) else Get(r4, Keys.ExternalIds))
    ensures forall k :: k != Keys.Declarations && k != Keys.ExternalIds ==> Get(r, k) == Get(r4, k)
    ensures forall k :: k != Keys.Declarations && k != Keys.ExternalIds ==> (k in r <==> k in r4)
  {
    var r5 := AttachDeclarations(r4, fields, c);
    assert Get(r5, Keys.Id) == Get(r4, Keys.Id) && Get(r5, Keys.ExternalIds) == Get(r4, Keys.ExternalIds);
    ExternalIds.FetchReadsRootOrgAndChannel(Get(r4, Keys.Id), r5, r4, false, c);
    AttachExternalIds(r5, fields, c)
  }

  /** The locations section on its own: what it writes, and that it writes
      nothing else. */
  lemma LocationsSection(result: Record, r4: Record, fields: string, c: Collaborators)
    requires AttachUserLocations(result, fields, c) == Some(r4)
    ensures Requested(fields, Keys.Locations) ==> LocationEntriesWellFormed(result) && LocationsWritten(r4, result, fields, c)
    ensures !Requested(fields, Keys.Locations) ==> r4 == result
    ensures forall k :: k != Keys.UserLocations && k != Keys.LocationIds && k != Keys.ProfileLocation ==>
      Get(r4, k) == Get(result, k)
  {
  }

  /** What the later sections read is not changed by the locations section. */
  lemma LateFrame(result: Record, r4: Record, fields: string, c: Collaborators)
    requires forall k :: k != Keys.UserLocations && k != Keys.LocationIds && k != Keys.ProfileLocation ==>
      Get(r4, k) == Get(result, k)
    ensures DeclarationsOf(r4, c) == DeclarationsOf(result, c)
    ensures Get(r4, Keys.Declarations) == Get(result, Keys.Declarations)
    ensures Get(r4, Keys.ExternalIds) == Get(result, Keys.ExternalIds)
    ensures FetchesExternalIds(r4, fields) == FetchesExternalIds(result, fields)
    ensures ExternalIdsOf(r4, c) == ExternalIdsOf(result, c)
  {
    assert Get(r4, Keys.Id) == Get(result, Keys.Id);
    assert Get(r4, Keys.RootOrgId) == Get(result, Keys.RootOrgId);
    assert Get(r4, Keys.Channel) == Get(result, Keys.Channel);
    ExternalIds.FetchReadsRootOrgAndChannel(Get(result, Keys.Id), r4, result, false, c);
  }

  /** The declaration and external-id sections keep what the locations
      section wrote. */
  lemma TailKeepsLocations(result: Record, r4: Record, fields: string, c: Collaborators)
    ensures var r := DeclarationsAndExternalIds(r4, fields, c);
      && (LocationEntriesWellFormed(result) && LocationsWritten(r4, result, fields, c) ==> LocationsWritten(r, result, fields, c))
      && (LocationKeysKept(r4, result) ==> LocationKeysKept(r, result))
  {
    var r := DeclarationsAndExternalIds(r4, fields, c);
    assert Get(r, Keys.RootOrgId) == Get(r4, Keys.RootOrgId);
    assert Get(r, Keys.Organisations) == Get(r4, Keys.Organisations);
    assert LocationKeysKept(r, r4);
    assert Keys.LocationIds in r <==> Keys.LocationIds in r4;
    assert Keys.ProfileLocation in r <==> Keys.ProfileLocation in r4;
  }

  /** The keys the late sections write are section keys of their own. */
  lemma LateKeysAreSectionKeys()
    ensures forall k :: k !in ExtraKeys || k == Keys.LastLoginTime || k == Keys.Topics || k == Keys.RoleList || k == Keys.Organisations ==>
      k != Keys.Declarations && k != Keys.ExternalIds && k != Keys.UserLocations && k != Keys.LocationIds && k != Keys.ProfileLocation
  {
  }

  /** The sections after the role catalogue: locations, declarations,
      external ids. */
  function LateSections(result: Record, fields: string, c: Collaborators): (r: Option<Record>)
    ensures r.None? <==> Requested(fields, Keys.Locations) && !LocationEntriesWellFormed(result)
    ensures r.Some? && Requested(fields, Keys.Locations) ==> LocationsWritten(r.value, result, fields, c)
    ensures r.Some? && !Requested(fields, Keys.Locations) ==> LocationKeysKept(r.value, result)
    ensures r.Some? ==> Get(r.value, Keys.Declarations) ==
                        (if Requested(fields, Keys.Declarations) then DeclarationsOf(result, c) else Get(result, Keys.Declarations))
    ensures r.Some? ==> Get(r.value, Keys.ExternalIds) ==
                        (if FetchesExternalIds(result, fields) then ExternalIdsOf(result, c) else Get(result, Keys.ExternalIds))
    ensures r.Some? ==> forall k :: k !in ExtraKeys || k == Keys.LastLoginTime || k == Keys.Topics || k == Keys.RoleList || k == Keys.Organisations ==>
      Get(r.value, k) == Get(result, k)
  {
    match AttachUserLocations(result, fields, c)
    case None => None
    case Some(r4) =>
      LocationsSection(result, r4, fields, c);
      LateFrame(result, r4, fields, c);
      LateKeysAreSectionKeys();
      TailKeepsLocations(result, r4, fields, c);
      Some(DeclarationsAndExternalIds(r4, fields, c))
  }

  /** `addExtraFieldsInUserProfileResponse`. Blank `fields` changes nothing.
      Otherwise the sections run in the source's order; only the organisation
      and location sections can fail, and no key outside the sections'
      changes. */
  function AddExtraFields(result: Record, fields: string, c: Collaborators, s: Snapshot): (r: Option<Record>)
    ensures IsBlank(Some(fields)) ==> r == Some(result)
    ensures !IsBlank(Some(fields)) ==>
      (r.None? <==>
         || (EnrichesOrgs(result, fields) && EnrichedOrgs(result, c, s.schoolOrgType).None?)
         || (Requested(fields, Keys.Locations) && !LocationEntriesWellFormed(result)))
    ensures !IsBlank(Some(fields)) && r.Some? ==> Get(r.value, Keys.LastLoginTime) == Num(0)
    ensures !IsBlank(Some(fields)) && r.Some? && Requested(fields, Keys.Topic) ==> Get(r.value, Keys.Topics) == Arr([])
    ensures !IsBlank(Some(fields)) && r.Some? && Requested(fields, Keys.Roles) ==> Get(r.value, Keys.RoleList) == s.readRoles
    ensures !IsBlank(Some(fields)) && r.Some? ==>
      Get(r.value, Keys.Organisations) == (if EnrichesOrgs(result, fields) then Arr(Objects(EnrichedOrgs(result, c, s.schoolOrgType).value))
                                           else Get(result, Keys.Organisations))
    ensures !IsBlank(Some(fields)) && r.Some? && Requested(fields, Keys.Locations) ==>
      LocationEntriesWellFormed(result) && LocationsWritten(r.value, result, fields, c)
    ensures !IsBlank(Some(fields)) && r.Some? && !Requested(fields, Keys.Locations) ==> LocationKeysKept(r.value, result)
    ensures !IsBlank(Some(fields)) && r.Some? ==>
      Get(r.value, Keys.Declarations) == (if Requested(fields, Keys.Declarations) then DeclarationsOf(result, c) else Get(result, Keys.Declarations))
    ensures !IsBlank(Some(fields)) && r.Some? ==>
      Get(r.value, Keys.ExternalIds) == (if FetchesExternalIds(result, fields) then ExternalIdsOf(result, c) else Get(result, Keys.ExternalIds))
    ensures r.Some? ==> forall k :: k !in ExtraKeys ==> Get(r.value, k) == Get(result, k)
  {
    if IsBlank(Some(fields)) then Some(result)
    else
      var early := EarlySections(result, fields, c, s);
      if early.None? then None
      else
        EarlyFrame(result, early.value, fields, c, s);
        LateSections(early.value, fields, c)
  }

  /** What the late sections read is not changed by the early ones. */
  lemma EarlyFrame(result: Record, early: Record, fields: string, c: Collaborators, s: Snapshot)
    requires EarlySections(result, fields, c, s) == Some(early)
    ensures LocationKeysKept(early, result)
    ensures LocationEntriesWellFormed(early) == LocationEntriesWellFormed(result)
    ensures LocationEntriesWellFormed(result) ==> ResolvedLocations(early, c.locationsByIds) == ResolvedLocations(result, c.locationsByIds)
    ensures Get(early, Keys.Declarations) == Get(result, Keys.Declarations)
    ensures DeclarationsOf(early, c) == DeclarationsOf(result, c)
    ensures Get(early, Keys.ExternalIds) == Get(result, Keys.ExternalIds)
    ensures FetchesExternalIds(early, fields) == FetchesExternalIds(result, fields)
    ensures ExternalIdsOf(early, c) == ExternalIdsOf(result, c)
  {
    assert Get(early, Keys.Id) == Get(result, Keys.Id);
    ExternalIds.FetchReadsRootOrgAndChannel(Get(result, Keys.Id), early, result, false, c);
  }

  /** A request for locations alone, on a profile whose location entries are
      all found: `userLocations` holds exactly the found locations and the raw
      location keys are gone. */
  lemma LocationsOnlyRequest(result: Record, c: Collaborators)
    requires LocationEntriesWellFormed(result)
    requires |ResolvedLocations(result, c.locationsByIds)| > 0
    ensures var r := AttachUserLocations(result, Keys.Locations, c);
      && r.Some?
      && Get(r.value, Keys.UserLocations) == Arr(ResolvedLocations(result, c.locationsByIds))
      && Keys.LocationIds !in r.value && Keys.ProfileLocation !in r.value
  {
    assert Requested(Keys.Locations, Keys.Locations) by {
      assert Keys.Locations <= Keys.Locations;
    }
    assert !Requested(Keys.Locations, Keys.Organisations) by {
      assert |Keys.Locations| < |Keys.Organisations|;
      NoContainsShorter(Keys.Locations, Keys.Organisations);
    }
  }

  /** A string never contains a longer one. */
  lemma {:induction false} NoContainsShorter(s: string, t: string)
    requires |s| < |t|
    ensures !Contains(s, t)
  {
    if |s| > 0 {
      NoContainsShorter(s[1..], t);
    }
  }
}
