# UserProfileReadService, modelled in Dafny

This project models the profile read of the Sunbird user service. The read
resolves the requested id to a canonical user id, possibly through an
external identity. It loads the stored profile and refuses missing or
locked accounts. It strips the private fields and reshapes the profile, and
it attaches the root organisation and the live organisation memberships. It
then applies the managed-by delegation gate and optionally attaches a
managed token. It adds the sections requested through `fields`:
organisations, locations (with school inference), roles, declarations and
external ids. Finally it decrypts the stored fields, computes the
terms-and-conditions prompt, the feature flags and the minor flag, and
returns a V3 or V4 shape.

Everything is pure. A profile, a membership row, an organisation, a
location and an external-id row are each a `Json.Record` (a map from
string keys to JSON-like values), and a missing key reads as null. Every
call out of the service is a function-typed field of `Env.Collaborators`:

- the user, organisation and location stores;
- the search index;
- the external identity service;
- the JSON parser;
- decryption and token issuing;
- the bit decoders.

Process-wide configuration is an `Env.Snapshot`. It holds:

- the private-field list;
- the user and organisation default blocks;
- the `tncConfig` setting;
- the role catalogue;
- the encrypted keys;
- the flag names;
- the school type code;
- the current year.

A Java exception that no step catches becomes a `Failure` of the read; one
that is caught becomes the value the source falls back to.

Modules:

- `Wrappers`, `Text`, `Json` and `Keys` hold the Java semantics the
  service relies on and the key names. `Text` covers `isBlank`,
  `equalsIgnoreCase`, `contains`, `Integer.parseInt` and
  `split("-")[0]`.
- `Env` holds the request, the error codes, the collaborators and the
  snapshot.
- `Identity` covers id resolution, the profile load and private-field
  removal.
- `Lists` covers `distinct()` and the `Collectors.toMap` index by id.
- `Orgs` covers memberships, the organisation and location indices, and
  the enrichment of membership rows.
- `Locations` covers batch location lookup, positional projection and
  the school inference.
- `ExternalIds` covers external-id normalisation and the provider remap.
- `Consent` covers the terms-and-conditions state.
- `Delegation` covers the managed-by gate and the managed token.
- `Shaping` covers user type and location, the minor flag, the flags,
  declarations and decryption.
- `ExtraFields` covers the `fields`-driven sections.
- `ProfileRead` holds the whole read and its end-to-end guarantees.

## Model

| member | source | states |
|---|---|---|
| Identity.ValidateProviderAndIdType | actors/sunbird-lms-mw/actors/user/src/main/java/org/sunbird/user/service/UserProfileReadService.java:322-329 | fails with the id-type mandatory-parameter error exactly when a provider is given and the id type is blank |
| Identity.ResolveUserId | actors/sunbird-lms-mw/actors/user/src/main/java/org/sunbird/user/service/UserProfileReadService.java:73-78 | a missing id type wins; without a provider the id is the user id; with one, the external-identity lookup decides, and a miss is the not-found error carrying id, id type and provider |
| Identity.ResolveNeedsNoLookup | actors/sunbird-lms-mw/actors/user/src/main/java/org/sunbird/user/service/UserProfileReadService.java:73-78 | when the id type is missing or no provider is given, the external-identity service plays no part, and the resolution succeeds exactly when there is no provider |
| Identity.RemoveUserPrivateField | actors/sunbird-lms-mw/actors/user/src/main/java/org/sunbird/user/service/UserProfileReadService.java:331-337 | the result holds exactly the input's keys minus every configured private key and the address, with values unchanged |
| Identity.LoadProfile | actors/sunbird-lms-mw/actors/user/src/main/java/org/sunbird/user/service/UserProfileReadService.java:289-306 | an empty row is user-not-found, a row whose deleted flag is true is account-locked, and otherwise the row is returned with its private fields removed |
| Identity.LoadedProfileHidesPrivateFields | actors/sunbird-lms-mw/actors/user/src/main/java/org/sunbird/user/service/UserProfileReadService.java:331-337 | no private key and no address survives a successful load |
| Lists.Distinct | actors/sunbird-lms-mw/actors/user/src/main/java/org/sunbird/user/service/UserProfileReadService.java:632-639 | `distinct()`: the same elements, each once, never longer, and non-empty for a non-empty input |
| Lists.IndexByIdSpec | actors/sunbird-lms-mw/actors/user/src/main/java/org/sunbird/user/service/UserProfileReadService.java:656-659 | `Collectors.toMap` by id succeeds exactly when every row is a map and the ids are distinct; then every row sits under its id and every key is some row's id |
| Lists.IndexById | actors/sunbird-lms-mw/actors/user/src/main/java/org/sunbird/user/service/UserProfileReadService.java:656-659 | `Collectors.toMap` by id: every indexed record sits under its own id |
| Orgs.AnnotateAssociation | actors/sunbird-lms-mw/actors/user/src/main/java/org/sunbird/user/service/UserProfileReadService.java:271-281 | a row with an association type gets the three mechanism flags decoded from it; rows without one are unchanged; nothing else changes |
| Orgs.KeptIndices | actors/sunbird-lms-mw/actors/user/src/main/java/org/sunbird/user/service/UserProfileReadService.java:267-284 | the positions of the non-deleted rows, strictly increasing and complete |
| Orgs.FetchUserOrgList | actors/sunbird-lms-mw/actors/user/src/main/java/org/sunbird/user/service/UserProfileReadService.java:262-287 | the memberships whose deleted flag is not true, in stored order, each annotated with its association mechanisms |
| Orgs.FetchUserOrgListCount | actors/sunbird-lms-mw/actors/user/src/main/java/org/sunbird/user/service/UserProfileReadService.java:262-287 | the number of returned memberships is the number of stored rows that are not deleted |
| Orgs.OrgIdsOf | actors/sunbird-lms-mw/actors/user/src/main/java/org/sunbird/user/service/UserProfileReadService.java:634-637 | the organisation id of each membership, positionally |
| Orgs.FetchAllOrgById | actors/sunbird-lms-mw/actors/user/src/main/java/org/sunbird/user/service/UserProfileReadService.java:632-663 | no memberships means an empty index; otherwise one batch lookup of the distinct organisation ids, indexed by id, with a duplicate id fatal |
| Orgs.PrepOrgLocations | actors/sunbird-lms-mw/actors/user/src/main/java/org/sunbird/user/service/UserProfileReadService.java:668-698 | an organisation's location text parsed: blank gives null location ids; a parsed list replaces the text and yields its ids; a failed parse leaves the text and gives null ids |
| Orgs.FetchAllLocationsById | actors/sunbird-lms-mw/actors/user/src/main/java/org/sunbird/user/service/UserProfileReadService.java:665-710 | every organisation updated as above, and the locations of all non-blank ids looked up once and indexed by id, or an empty index when there are none |
| Orgs.CopyOrgFields | actors/sunbird-lms-mw/actors/user/src/main/java/org/sunbird/user/service/UserProfileReadService.java:718-723 | the six organisation attributes are copied onto the membership row, and every other key keeps its value |
| Orgs.MarkSchool | actors/sunbird-lms-mw/actors/user/src/main/java/org/sunbird/user/service/UserProfileReadService.java:724-729 | `isSchool` is written, as "type equals the school code", only when the organisation has a type |
| Orgs.AttachLocations | actors/sunbird-lms-mw/actors/user/src/main/java/org/sunbird/user/service/UserProfileReadService.java:730-734 | the positional location records are attached only when some location was resolved |
| Orgs.MergeOrgInfo | actors/sunbird-lms-mw/actors/user/src/main/java/org/sunbird/user/service/UserProfileReadService.java:716-735 | a found organisation's attributes, school flag and locations merged onto the row; keys outside the enrichment keep their values |
| Orgs.EnrichOrg | actors/sunbird-lms-mw/actors/user/src/main/java/org/sunbird/user/service/UserProfileReadService.java:712-739 | a row whose organisation is missing or empty is left alone; otherwise it is merged as above |
| Orgs.UpdateUserOrgInfo | actors/sunbird-lms-mw/actors/user/src/main/java/org/sunbird/user/service/UserProfileReadService.java:626-630 | every membership row becomes its `EnrichOrg` enrichment, in order: a row whose organisation was not indexed is returned unchanged, and one whose organisation was indexed carries that organisation's name, channel, hashtag and external id; all keys survive; it fails exactly when the organisation or the location index cannot be built |
| Orgs.EnrichedRowKeepsOrgAttributes | actors/sunbird-lms-mw/actors/user/src/main/java/org/sunbird/user/service/UserProfileReadService.java:712-723 | a row whose organisation is not indexed is left alone; one whose organisation is indexed takes the organisation's name, channel, hashtag and external id |
| Orgs.PrepKeepsOwnAttributes | actors/sunbird-lms-mw/actors/user/src/main/java/org/sunbird/user/service/UserProfileReadService.java:668-698 | preparing an organisation's locations leaves its name, channel, hashtag and external id alone |
| Locations.GetUserLocations | actors/sunbird-lms-mw/actors/user/src/main/java/org/sunbird/user/service/UserProfileReadService.java:609-624 | one batch lookup for a non-empty id list, and nothing for an empty one |
| Locations.PrepLocationFields | actors/sunbird-lms-mw/actors/user/src/main/java/org/sunbird/user/service/UserProfileReadService.java:741-750 | one entry per id, in order: the location stored under the id, or null where there is none |
| Locations.PositionalLookup | actors/sunbird-lms-mw/actors/user/src/main/java/org/sunbird/user/service/UserProfileReadService.java:741-750 | with an index built from a location batch, entry i is the batch row whose id is the i-th id |
| Json.IdsOf | actors/sunbird-lms-mw/actors/user/src/main/java/org/sunbird/user/service/UserProfileReadService.java:528-529 | the ids of a list of maps in order, defined exactly when every element is a map (a null element throws) |
| Locations.SchoolQuery | actors/sunbird-lms-mw/actors/user/src/main/java/org/sunbird/user/service/UserProfileReadService.java:577-582 | the school search query filters on the organisation's name, the school location type and the organisation's external id as code |
| Locations.SchoolCandidate | actors/sunbird-lms-mw/actors/user/src/main/java/org/sunbird/user/service/UserProfileReadService.java:573-576 | an affiliation is searched for exactly when its organisation id is non-blank and not the root organisation (ignoring case) and its name and external id are non-blank; the root organisation never is, and a searched one yields a query with a non-blank name and code |
| Locations.CandidateIsSearched | actors/sunbird-lms-mw/actors/user/src/main/java/org/sunbird/user/service/UserProfileReadService.java:572-586 | such an affiliation contributes the search's non-empty hit, nothing for an empty one, and ends the loop when the search throws |
| Locations.HitOf | actors/sunbird-lms-mw/actors/user/src/main/java/org/sunbird/user/service/UserProfileReadService.java:573-586 | one membership adds nothing unless it is a candidate, its non-empty hit when its search succeeds, and fails exactly when its search fails |
| Locations.FirstFailure | actors/sunbird-lms-mw/actors/user/src/main/java/org/sunbird/user/service/UserProfileReadService.java:572-590 | the position of the first membership whose search throws: every earlier one succeeds |
| Locations.SearchLocation | actors/sunbird-lms-mw/actors/user/src/main/java/org/sunbird/user/service/UserProfileReadService.java:595-607 | a non-empty response whose `content` list starts with a map returns that map, and every non-empty result is such a first element; an empty response, a null or empty `content` or a null first element gives the empty map; a search that throws, a non-list `content` or a first element that is not a map is a failure |
| Locations.SchoolLoop | actors/sunbird-lms-mw/actors/user/src/main/java/org/sunbird/user/service/UserProfileReadService.java:572-590 | at most one school per membership, each the non-empty first search hit of a candidate membership (see `SchoolLoopIsTruncatedHits` for order and completeness) |
| Locations.AddSchoolLocation | actors/sunbird-lms-mw/actors/user/src/main/java/org/sunbird/user/service/UserProfileReadService.java:561-593 | without more than one membership and at least three locations nothing changes; otherwise the resolved locations are followed by every membership's own hit, in membership order, up to the first search that throws |
| Locations.SchoolLoopIsTruncatedHits | actors/sunbird-lms-mw/actors/user/src/main/java/org/sunbird/user/service/UserProfileReadService.java:572-590 | the school loop is the concatenation of each membership's own hit, in order, cut off at the first search that throws |
| Locations.AllHitsAppended | actors/sunbird-lms-mw/actors/user/src/main/java/org/sunbird/user/service/UserProfileReadService.java:561-593 | when no search throws, every candidate's non-empty hit is appended after the resolved locations, in membership order |
| ExternalIds.PublicId | actors/sunbird-lms-mw/actors/user/src/main/java/org/sunbird/user/service/UserProfileReadService.java:391-415 | the public id of an external-id row: the original id, decrypted for declared email or phone, and replaced by the location code for a declared district or state; when the code cast succeeds, a row with all three originals gets a string or null id |
| ExternalIds.NormaliseExternalId | actors/sunbird-lms-mw/actors/user/src/main/java/org/sunbird/user/service/UserProfileReadService.java:385-433 | id, id type and provider come from the originals, the ten audit keys are removed, and every other key is kept as it was |
| ExternalIds.DecryptUserExternalIds | actors/sunbird-lms-mw/actors/user/src/main/java/org/sunbird/user/service/UserProfileReadService.java:385-433 | every row normalised, in order; it throws exactly when some declared district or state resolves to a location that is not a map or whose code is not a string |
| ExternalIds.DeclaredEmailIsDecrypted | actors/sunbird-lms-mw/actors/user/src/main/java/org/sunbird/user/service/UserProfileReadService.java:399-404 | a declared email stored encrypted is returned in clear |
| ExternalIds.RemapRow | actors/sunbird-lms-mw/actors/user/src/main/java/org/sunbird/user/service/UserProfileReadService.java:486-493 | the provider becomes the user's channel, and the id type becomes it too when the id type equalled the provider |
| ExternalIds.RemapProviders | actors/sunbird-lms-mw/actors/user/src/main/java/org/sunbird/user/service/UserProfileReadService.java:484-494 | every row remapped, in order |
| ExternalIds.FetchUserExternalIdentity | actors/sunbird-lms-mw/actors/user/src/main/java/org/sunbird/user/service/UserProfileReadService.java:474-509 | normalised rows are remapped to the user's channel when the first row's provider is the root organisation, and otherwise go to the generic normalisation; a remapped row keeps every key but provider and id type; a collaborator failure, or a root organisation id, channel or location code that is not a string, gives the empty list |
| ExternalIds.FetchReadsRootOrgAndChannel | actors/sunbird-lms-mw/actors/user/src/main/java/org/sunbird/user/service/UserProfileReadService.java:474-494 | of the profile passed in, the external-id fetch reads only the root organisation id and the channel |
| Consent.ConfigOf | actors/sunbird-lms-mw/actors/user/src/main/java/org/sunbird/user/service/UserProfileReadService.java:436-445 | the setting is used exactly when it parses to a non-empty map, and then it is that map |
| Consent.UpdateTnc | actors/sunbird-lms-mw/actors/user/src/main/java/org/sunbird/user/service/UserProfileReadService.java:435-472 | with no usable setting, or a latest version that is neither text nor null, nothing is written; otherwise the latest version is written; an accepted version that is neither text nor null stops there; otherwise the prompt is false unless the latest version has a URL entry, in which case the URL is written and the prompt says whether the user must accept again; no other key changes |
| Consent.LatestUrl | actors/sunbird-lms-mw/actors/user/src/main/java/org/sunbird/user/service/UserProfileReadService.java:456 | the URL of the latest version, when the latest version names a map entry whose URL is text or null; a text URL is always found |
| Consent.NoPromptIffAcceptedLatest | actors/sunbird-lms-mw/actors/user/src/main/java/org/sunbird/user/service/UserProfileReadService.java:460-465 | the user is unprompted exactly when they accepted the latest version (ignoring case) and the acceptance time is recorded |
| Consent.CaseInsensitiveAcceptance | actors/sunbird-lms-mw/actors/user/src/main/java/org/sunbird/user/service/UserProfileReadService.java:461 | having accepted "V2" counts as having accepted "v2" |
| Consent.UnreadableAcceptanceWritesOnlyLatest | actors/sunbird-lms-mw/actors/user/src/main/java/org/sunbird/user/service/UserProfileReadService.java:452-453 | an accepted version that is neither text nor null leaves only the latest version written |
| Delegation.AuthorizeManagedRead | actors/sunbird-lms-mw/actors/user/src/main/java/org/sunbird/user/service/UserProfileReadService.java:112-114 | a read is refused exactly when it is public, the profile is managed, and the requester is not exactly the manager |
| Delegation.PrivateViewAlwaysAuthorized | actors/sunbird-lms-mw/actors/user/src/main/java/org/sunbird/user/service/UserProfileReadService.java:112 | a private read is never refused |
| Delegation.ManagerMatchIsCaseSensitive | actors/sunbird-lms-mw/actors/user/src/main/java/org/sunbird/user/service/UserProfileReadService.java:112 | a requester id differing from the manager's only in letter case is refused |
| Delegation.ParseBoolean | actors/sunbird-lms-mw/actors/user/src/main/java/org/sunbird/user/service/UserProfileReadService.java:237-238 | `Boolean.parseBoolean`: true exactly for a present four-letter word spelling "true" in any letter case; null, "1", "yes" and "false" are false |
| Delegation.GetManagedToken | actors/sunbird-lms-mw/actors/user/src/main/java/org/sunbird/user/service/UserProfileReadService.java:235-260 | with tokens asked for ("true" in any case) on a managed profile, the caller's token is attached, or else a token issued for the manager; otherwise nothing changes |
| Shaping.UserTypeDetails | actors/sunbird-lms-mw/actors/user/src/main/java/org/sunbird/user/service/UserProfileReadService.java:160-173 | the parsed user type map, or the empty map when the text is missing or does not parse |
| Shaping.ProfileLocationList | actors/sunbird-lms-mw/actors/user/src/main/java/org/sunbird/user/service/UserProfileReadService.java:175-193 | the parsed location list, or the empty list when the text is missing or does not parse |
| Shaping.ProfileLocationIds | actors/sunbird-lms-mw/actors/user/src/main/java/org/sunbird/user/service/UserProfileReadService.java:183-186 | the ids of the parsed location entries in order, or nothing when an entry is null |
| Shaping.FlatUserType | actors/sunbird-lms-mw/actors/user/src/main/java/org/sunbird/user/service/UserProfileReadService.java:197-205 | V3 puts the flat type, sub-type and location ids, and then the user defaults over them |
| Shaping.AppendUserTypeAndLocation | actors/sunbird-lms-mw/actors/user/src/main/java/org/sunbird/user/service/UserProfileReadService.java:159-213 | the parsed type and location replace their text; V3 adds the flat fields and defaults; other reads drop the flat fields; nothing else changes |
| Shaping.V3LocationIdsFollowProfile | actors/sunbird-lms-mw/actors/user/src/main/java/org/sunbird/user/service/UserProfileReadService.java:178-204 | a V3 read exposes exactly the ids of the stored location list, in order |
| Shaping.AppendMinorFlag | actors/sunbird-lms-mw/actors/user/src/main/java/org/sunbird/user/service/UserProfileReadService.java:215-227 | with a date of birth, `isMinor` is written from its year; an unparsable year is fatal; without a date nothing changes |
| Shaping.YearOfStoredDate | actors/sunbird-lms-mw/actors/user/src/main/java/org/sunbird/user/service/UserProfileReadService.java:218 | the year read back from a stored `<year>-12-31` date is the year |
| Shaping.MinorBoundary | actors/sunbird-lms-mw/actors/user/src/main/java/org/sunbird/user/service/UserProfileReadService.java:221-224 | for a stored `<year>-12-31` date, the user is a minor exactly when at most 19 years have passed: still a minor at 19, not at 20 |
| Shaping.FlagsOf | actors/sunbird-lms-mw/actors/user/src/main/java/org/sunbird/user/service/UserProfileReadService.java:230 | the flags value as an int, from a number or its decimal text; null or other values fail |
| Shaping.AddFlagValue | actors/sunbird-lms-mw/actors/user/src/main/java/org/sunbird/user/service/UserProfileReadService.java:229-233 | every named flag is written as its decoding of the flags value; an unparsable value is fatal; other keys keep their values |
| Shaping.FlagsTextRoundTrip | actors/sunbird-lms-mw/actors/user/src/main/java/org/sunbird/user/service/UserProfileReadService.java:230 | a flags value stored as decimal text decodes like the number |
| Shaping.DecryptDeclarationFields | actors/sunbird-lms-mw/actors/user/src/main/java/org/sunbird/user/service/UserProfileReadService.java:370-383 | the declared email and phone are decrypted where present; no key is added or dropped |
| Shaping.DeclaredContactsInClear | actors/sunbird-lms-mw/actors/user/src/main/java/org/sunbird/user/service/UserProfileReadService.java:372-381 | encrypted declared contacts come back in clear under an inverse decryption |
| Shaping.FetchUserDeclarations | actors/sunbird-lms-mw/actors/user/src/main/java/org/sunbird/user/service/UserProfileReadService.java:339-368 | one five-key declaration per stored row, in order, with its declared fields decrypted |
| Shaping.DecryptProfile | actors/sunbird-lms-mw/actors/user/src/main/java/org/sunbird/user/service/UserProfileReadService.java:131 | the encrypted fields are decrypted in place, and no key is added or dropped |
| ExtraFields.StampLoginAndTopics | actors/sunbird-lms-mw/actors/user/src/main/java/org/sunbird/user/service/UserProfileReadService.java:514-517 | the last login time becomes 0, and topics become empty when asked for |
| ExtraFields.EnrichOrganisations | actors/sunbird-lms-mw/actors/user/src/main/java/org/sunbird/user/service/UserProfileReadService.java:518-520 | memberships are enriched when organisations are asked for, and an index failure is fatal |
| ExtraFields.AttachRoles | actors/sunbird-lms-mw/actors/user/src/main/java/org/sunbird/user/service/UserProfileReadService.java:521-523 | the role catalogue is attached when roles are asked for |
| ExtraFields.ResolvedLocations | actors/sunbird-lms-mw/actors/user/src/main/java/org/sunbird/user/service/UserProfileReadService.java:525-530 | the locations looked up for the ids of the profile's location entries |
| ExtraFields.WriteUserLocations | actors/sunbird-lms-mw/actors/user/src/main/java/org/sunbird/user/service/UserProfileReadService.java:532-543 | the found locations, plus schools when organisations are asked for too, become `userLocations`; the raw location keys are removed |
| ExtraFields.AttachUserLocations | actors/sunbird-lms-mw/actors/user/src/main/java/org/sunbird/user/service/UserProfileReadService.java:524-546 | a null location entry is fatal; no entries or no found location changes nothing; otherwise the locations are written as above |
| ExtraFields.AttachDeclarations | actors/sunbird-lms-mw/actors/user/src/main/java/org/sunbird/user/service/UserProfileReadService.java:547-551 | the declarations are attached when asked for |
| ExtraFields.AttachExternalIds | actors/sunbird-lms-mw/actors/user/src/main/java/org/sunbird/user/service/UserProfileReadService.java:552-557 | the external ids, without merged declarations, are attached when asked for and none are present |
| ExtraFields.EarlySections | actors/sunbird-lms-mw/actors/user/src/main/java/org/sunbird/user/service/UserProfileReadService.java:514-523 | fails exactly when the organisation index fails; sets the login stamp, topics, roles and enriched memberships; no other key changes |
| ExtraFields.LateSections | actors/sunbird-lms-mw/actors/user/src/main/java/org/sunbird/user/service/UserProfileReadService.java:524-557 | fails exactly on a null location entry; the location, declaration and external-id sections are each the requested value, and the earlier keys are kept |
| ExtraFields.AddExtraFields | actors/sunbird-lms-mw/actors/user/src/main/java/org/sunbird/user/service/UserProfileReadService.java:511-559 | blank fields change nothing; otherwise it fails exactly when the organisation index or a null location entry fails; the login stamp, topics, roles, enriched memberships, user locations with schools, declarations and external ids are each the requested section's value, and every other section key is kept |
| ExtraFields.LocationsOnlyRequest | actors/sunbird-lms-mw/actors/user/src/main/java/org/sunbird/user/service/UserProfileReadService.java:524-544 | a locations-only request on resolvable entries returns exactly the found locations and drops the raw location keys |
| ProfileRead.RootOrgView | actors/sunbird-lms-mw/actors/user/src/main/java/org/sunbird/user/service/UserProfileReadService.java:83-93 | a found root organisation gets the organisation defaults, and V4 then removes every default key |
| ProfileRead.Assemble | actors/sunbird-lms-mw/actors/user/src/main/java/org/sunbird/user/service/UserProfileReadService.java:79-97 | the root organisation named by the profile and the live memberships are attached, the user defaults hold, and all other loaded keys are kept |
| ProfileRead.Personalise | actors/sunbird-lms-mw/actors/user/src/main/java/org/sunbird/user/service/UserProfileReadService.java:98-124 | refused exactly by the delegation gate; the managed token is the one `getManagedToken` gives; a self read without fields carries the external ids fetched for the user with declarations merged; no other key changes |
| ProfileRead.Extend | actors/sunbird-lms-mw/actors/user/src/main/java/org/sunbird/user/service/UserProfileReadService.java:125-127 | a blank field list changes nothing; otherwise the read fails exactly when the optional sections fail, and returns what they return |
| ProfileRead.Disclose | actors/sunbird-lms-mw/actors/user/src/main/java/org/sunbird/user/service/UserProfileReadService.java:128-143 | a private read exposes the still-encrypted email and phone; a public read leaves `encEmail` and `encPhone` as they were unless they are themselves encrypted strings; only encrypted strings and the consent and accepted-terms keys change |
| ProfileRead.Finalise | actors/sunbird-lms-mw/actors/user/src/main/java/org/sunbird/user/service/UserProfileReadService.java:144-152 | a malformed flags value is fatal; `identifier` is the user id; V4 carries no user default key |
| ProfileRead.AfterGate | actors/sunbird-lms-mw/actors/user/src/main/java/org/sunbird/user/service/UserProfileReadService.java:125-152 | after the gate only unchecked failures occur, and the identifier and V4 guarantees hold |
| ProfileRead.FromAssembled | actors/sunbird-lms-mw/actors/user/src/main/java/org/sunbird/user/service/UserProfileReadService.java:98-152 | from the assembled profile on, the read is unauthorized exactly when the gate refuses, and non-string keys no later stage writes are returned unchanged |
| ProfileRead.GetUserProfileData | actors/sunbird-lms-mw/actors/user/src/main/java/org/sunbird/user/service/UserProfileReadService.java:66-157 | a missing id type fails first; a failed id resolution and a failed profile load are the read's own error; after a successful load only unauthorized or unchecked failures occur; a success carries `identifier` and, for V4, no user default key |
| ProfileRead.UnauthorizedIffForeignManagedRead | actors/sunbird-lms-mw/actors/user/src/main/java/org/sunbird/user/service/UserProfileReadService.java:112-114 | a read is unauthorized exactly when its assembled profile is managed by someone other than the requester on a public read |
| ProfileRead.PrivateReadNeverUnauthorized | actors/sunbird-lms-mw/actors/user/src/main/java/org/sunbird/user/service/UserProfileReadService.java:112 | a private read is never unauthorized |
| ProfileRead.ManagedProfileRefusedToOthers | actors/sunbird-lms-mw/actors/user/src/main/java/org/sunbird/user/service/UserProfileReadService.java:101-114 | a public read of a stored profile managed by another user is refused |
| ProfileRead.V4RootOrgHasNoOrgDefaults | actors/sunbird-lms-mw/actors/user/src/main/java/org/sunbird/user/service/UserProfileReadService.java:86-94 | a V4 read returns the root organisation without any organisation default key |
| Text.ParseInt | actors/sunbird-lms-mw/actors/user/src/main/java/org/sunbird/user/service/UserProfileReadService.java:218 | `Integer.parseInt`: a successful parse is in the 32-bit range and starts with a digit or sign (see the lemmas below for values and failures) |
| Text.ParseFormatRoundTrip | actors/sunbird-lms-mw/actors/user/src/main/java/org/sunbird/user/service/UserProfileReadService.java:218 | parsing the decimal text of an int-sized natural gives it back |
| Text.ParseFormatIntRoundTrip | actors/sunbird-lms-mw/actors/user/src/main/java/org/sunbird/user/service/UserProfileReadService.java:218 | every 32-bit integer, negative ones included, parses back from its decimal text |
| Text.ZeroPaddingIgnored | actors/sunbird-lms-mw/actors/user/src/main/java/org/sunbird/user/service/UserProfileReadService.java:218 | a leading zero after an optional sign does not change the parsed value |
| Text.ParseRejectsNonDigit | actors/sunbird-lms-mw/actors/user/src/main/java/org/sunbird/user/service/UserProfileReadService.java:218 | any character other than a digit, after an optional leading sign, makes the parse fail |
| Text.ParseRejectsOutOfRange | actors/sunbird-lms-mw/actors/user/src/main/java/org/sunbird/user/service/UserProfileReadService.java:218 | a decimal number beyond the 32-bit range fails to parse, with or without a minus sign |
| Text.PrefixBefore | actors/sunbird-lms-mw/actors/user/src/main/java/org/sunbird/user/service/UserProfileReadService.java:218 | `split("-")[0]`: a prefix without the separator, ending where the separator occurs |
| Text.ContainsWithin | actors/sunbird-lms-mw/actors/user/src/main/java/org/sunbird/user/service/UserProfileReadService.java:515 | a section request is a substring test, so a field list that names a longer word containing the section name (such as "topics" for "topic") requests that section too |
| Text.ContainsIsSubstring | actors/sunbird-lms-mw/actors/user/src/main/java/org/sunbird/user/service/UserProfileReadService.java:515 | `String.contains` holds exactly when the text occurs at some position |

## Left out

- Logging, the `Response` wrapper and the request context are not modelled. They do not affect the returned map.
- Store, search, cache, encryption, token and parser calls are parameters (`Env.Collaborators`). Only the calls the source guards with a catch, or whose failure it tests, have a failing outcome. The others are total, including decryption, token issuing and the store reads.
- `JsonKey`, `Util`, `ProjectUtil`, `ActorOperations`, `OrgTypeEnum`, `UserUtil`, `UserUtility`, `UserFlagUtil` and `AssociationMechanism` are not part of this model. Their values are parameters or assumed key spellings; only the distinctness of the keys matters, except for the `fields` section names.
- The operation name is matched case-insensitively in the source. Here it is the tag `Env.Operation`.
- Java casts are read with a typed-data convention. A non-string reads as null, a non-list as the empty list, and a non-map as the empty map. The ClassCastExceptions an ill-typed store would raise are not modelled, except for the casts of the latest and accepted versions and the URL in `updateTnc`, the casts of the search response's `content` list and its first element in `searchLocation`, the root organisation id and channel casts in `fetchUserExternalIdentity`, and the cast of a resolved location and its code in `decryptUserExternalIds`. The values of a stored external-id row are read by the convention. The casts of a membership's organisation id, name and external id in `addSchoolLocation` follow the convention.
- Locations.AddSchoolLocation: a null membership entry would end the school loop with a null dereference. Here the memberships are the enriched rows, which are always maps.
- Json.ReadAsMapList: Jackson's `List<Map<String,String>>` reading does not coerce values here. A numeric `id` stays a number, where Jackson would give its text, and a nested value is accepted, where Jackson would fail and leave the empty list.
- The location collaborators `locationsByIds` and `locationsByIdSet` are independent functions. Nothing forces them to agree on the same location id, although the source reads one table through both.
- ProfileRead.RootOrgView: the organisation store returns a record, and a missing organisation is the empty map. The source stores whatever `getOrgById` returned under `rootOrg`, which may be null.
- Case folding, whitespace and digits are the ASCII and Java whitespace sets. Unicode case folding is not modelled.
- The request's user id is a non-null string. An explicit null in the context is `None`, and an absent `requestedBy` or `managedFor` is the empty string.
- Orgs.FetchAllLocationsById: the Java `HashSet` of location ids is passed to the lookup as a set (`locationsByIdSet`). Its iteration order does not reach the result, because the result is indexed by id.
- Shaping.DecryptProfile: `decryptUserDataFrmES` is modelled as decrypting string values under a configured key set. Its handling of nested fields is not modelled.
- Delegation.GetManagedToken: the issued token is an uninterpreted value written under `managedToken`. Token generation itself is not modelled.
- ExtraFields.EnrichOrganisations: a missing organisation list is left alone. The source would throw on it, but the read always sets the list before this step.
- Shaping.AppendMinorFlag: the current year is a parameter (`Snapshot.currentYear`), not the clock.
