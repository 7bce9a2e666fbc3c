/** `fetchUserExternalIdentity` and `decryptUserExternalIds`: the user's
    external-id rows, with the stored original values surfaced, declared contact
    details decrypted, declared locations resolved to codes, provenance stripped
    and providers relabelled. */
module ExternalIds {
  import opened Wrappers
  import opened Text
  import opened Json
  import Keys
  import opened Env
  import Locations

  /** The provenance and audit keys no external-id row leaves with. */
  const AuditKeys: set<string> :=
    {Keys.ExternalId, Keys.OriginalExternalId, Keys.OriginalIdType, Keys.OriginalProvider,
     Keys.CreatedBy, Keys.LastUpdatedBy, Keys.LastUpdatedOn, Keys.CreatedOn, Keys.UserId, Keys.Slug}

  /** The public triple every row is given. */
  const PublicKeys: set<string> := {Keys.Id, Keys.IdType, Keys.Provider}

  /** All three stored originals are non-blank strings. */
  predicate HasOriginals(s: Record) {
    && !IsBlank(StrAt(s, Keys.OriginalExternalId))
    && !IsBlank(StrAt(s, Keys.OriginalIdType))
    && !IsBlank(StrAt(s, Keys.OriginalProvider))
  }

  /** The id type of a self-declared e-mail address or phone number. */
  predicate IsDeclaredContact(idType: Value) {
    idType == Str(Keys.DeclaredEmail) || idType == Str(Keys.DeclaredPhone)
  }

  /** The id type of a self-declared district or state. */
  predicate IsDeclaredLocation(idType: Value) {
    idType == Str(Keys.DeclaredDistrict) || idType == Str(Keys.DeclaredState)
  }

  /** The location code cast of a row succeeds: the row is not a declared
      district or state whose lookup finds a first entry, or that entry is a
      map whose code is a string or absent. */
  predicate CodeIsReadable(s: Record, lookup: seq<Value> -> seq<Value>) {
    HasOriginals(s) && IsDeclaredLocation(Get(s, Keys.OriginalIdType)) ==>
      var found := lookup([Get(s, Keys.OriginalExternalId)]);
      |found| == 0 || found[0] == Null ||
        (found[0].Object? && (Get(found[0].fields, Keys.Code).Str? || Get(found[0].fields, Keys.Code).Null?))
  }

  /** The profile's root organisation id casts to a string. */
  predicate RootOrgIsReadable(user: Record) {
    var v := Get(user, Keys.RootOrgId);
    v.Str? || v.Null?
  }

  /** The profile's channel casts to a string. */
  predicate ChannelIsReadable(user: Record) {
    var v := Get(user, Keys.Channel);
    v.Str? || v.Null?
  }

  /** The public id of a row: the original id, decrypted for a declared
      contact, replaced by the code of the first location found for a declared
      district or state (kept when the lookup is empty or its first entry null). */
  function PublicId(s: Record, decrypt: string -> string, lookup: seq<Value> -> seq<Value>): (id: Value)
    ensures !HasOriginals(s) ==> id == Get(s, Keys.OriginalExternalId)
    ensures HasOriginals(s) && IsDeclaredContact(Get(s, Keys.OriginalIdType)) ==>
      id == Str(decrypt(Get(s, Keys.OriginalExternalId).s))
    ensures HasOriginals(s) && IsDeclaredLocation(Get(s, Keys.OriginalIdType)) ==>
      var found := lookup([Get(s, Keys.OriginalExternalId)]);
      id == if |found| == 0 || found[0] == Null then Get(s, Keys.OriginalExternalId) else Get(RecOf(found[0]), Keys.Code)
    ensures HasOriginals(s) && !IsDeclaredContact(Get(s, Keys.OriginalIdType)) && !IsDeclaredLocation(Get(s, Keys.OriginalIdType)) ==>
      id == Get(s, Keys.OriginalExternalId)
    ensures HasOriginals(s) && CodeIsReadable(s, lookup) ==> id.Str? || id.Null?
  {
    var original := Get(s, Keys.OriginalExternalId);
    var idType := Get(s, Keys.OriginalIdType);
    if !HasOriginals(s) then original
    else if IsDeclaredContact(idType) then Str(decrypt(original.s))
    else if IsDeclaredLocation(idType) then
      var found := Locations.GetUserLocations([original], lookup);
      if |found| > 0 then (if found[0] == Null then original else Get(RecOf(found[0]), Keys.Code))
      else original
    else original
  }

  /** One row of `decryptUserExternalIds`: `id`, `idType` and `provider` are
      set from the stored originals (the id as `PublicId` gives it), the audit
      keys are removed, and every other key is left as it was. */
  function NormaliseExternalId(s: Record, decrypt: string -> string, lookup: seq<Value> -> seq<Value>): (r: Record)
    ensures forall k :: k in AuditKeys ==> k !in r
    ensures forall k :: k in PublicKeys ==> k in r
    ensures r[Keys.Id] == PublicId(s, decrypt, lookup)
    ensures r[Keys.IdType] == Get(s, Keys.OriginalIdType)
    ensures r[Keys.Provider] == Get(s, Keys.OriginalProvider)
    ensures forall k :: k in r <==> (k in s || k in PublicKeys) && k !in AuditKeys
    ensures forall k :: k in s && k !in AuditKeys && k !in PublicKeys ==> r[k] == s[k]
  {
    var s1 := s[Keys.Id := PublicId(s, decrypt, lookup)]
               [Keys.IdType := Get(s, Keys.OriginalIdType)]
               [Keys.Provider := Get(s, Keys.OriginalProvider)];
    s1 - AuditKeys
  }

  /** `decryptUserExternalIds`: every row normalised, in order; a location
      code that does not cast to a string throws (None). */
  function DecryptUserExternalIds(rows: seq<Record>, decrypt: string -> string, lookup: seq<Value> -> seq<Value>): (r: Option<seq<Record>>)
    ensures r.None? <==> exists i :: 0 <= i < |rows| && !CodeIsReadable(rows[i], lookup)
    ensures r.Some? ==> |r.value| == |rows|
    ensures r.Some? ==> forall i :: 0 <= i < |rows| ==> r.value[i] == NormaliseExternalId(rows[i], decrypt, lookup)
    ensures r.Some? ==> forall i :: 0 <= i < |rows| && HasOriginals(rows[i]) ==>
      Get(r.value[i], Keys.Id).Str? || Get(r.value[i], Keys.Id).Null?
  {
    if exists i :: 0 <= i < |rows| && !CodeIsReadable(rows[i], lookup) then None
    else Some(seq(|rows|, i requires 0 <= i < |rows| => NormaliseExternalId(rows[i], decrypt, lookup)))
  }

  /** A declared e-mail row whose stored id is the encryption of `plain` comes
      out with `plain` as its id, `declared-email` as its type, and no
      provenance keys. */
  lemma DeclaredEmailIsDecrypted(
    s: Record, plain: string, encrypt: string -> string, decrypt: string -> string,
    lookup: seq<Value> -> seq<Value>)
    requires forall p :: decrypt(encrypt(p)) == p
    requires Get(s, Keys.OriginalIdType) == Str(Keys.DeclaredEmail)
    requires Get(s, Keys.OriginalExternalId) == Str(encrypt(plain))
    requires HasOriginals(s)
    ensures var r := NormaliseExternalId(s, decrypt, lookup);
      && r[Keys.Id] == Str(plain)
      && r[Keys.IdType] == Str(Keys.DeclaredEmail)
      && forall k :: k in AuditKeys ==> k !in r
  {
  }

  /** The backward-compatibility relabelling applies: there are rows, the user
      has a root organisation, and the first row's provider is that
      organisation (ignoring case). */
  predicate RemapApplies(rows: seq<Record>, rootOrgId: Option<string>) {
    && |rows| > 0
    && !IsBlank(rootOrgId)
    && !IsBlank(StrAt(rows[0], Keys.Provider))
    && EqualsIgnoreCase(StrAt(rows[0], Keys.Provider).value, rootOrgId)
  }

  /** One row relabelled: provider becomes the channel, and so does the id type
      where it equalled the old (non-null) provider. */
  function RemapRow(s: Record, channel: Value): (r: Record)
    ensures Keys.Provider in r && r[Keys.Provider] == channel
    ensures Get(r, Keys.IdType) ==
      if Get(s, Keys.Provider) != Null && Get(s, Keys.Provider) == Get(s, Keys.IdType) then channel else Get(s, Keys.IdType)
    ensures forall k :: k in r <==> k in s || k == Keys.Provider || (k == Keys.IdType && k in r)
    ensures forall k :: k in s && k != Keys.Provider && k != Keys.IdType ==> r[k] == s[k]
  {
    var s1 := if Get(s, Keys.Provider) != Null && Get(s, Keys.Provider) == Get(s, Keys.IdType)
              then s[Keys.IdType := channel] else s;
    s1[Keys.Provider := channel]
  }

  function RemapProviders(rows: seq<Record>, channel: Value): (r: seq<Record>)
    ensures |r| == |rows|
    ensures forall i :: 0 <= i < |rows| ==> r[i] == RemapRow(rows[i], channel)
  {
    seq(|rows|, i requires 0 <= i < |rows| => RemapRow(rows[i], channel))
  }

  /** `fetchUserExternalIdentity`: the normalised rows, relabelled with the
      user's channel when the first row's provider is the root organisation and
      passed to the generic provider normalisation otherwise; a failure of
      either collaborator, or a root organisation id, channel or location code
      that does not cast to a string, gives the empty list. */
  function FetchUserExternalIdentity(userId: Value, user: Record, mergeDeclarations: bool, c: Collaborators): (r: seq<Record>)
    ensures c.externalIds(userId, mergeDeclarations).None? ==> r == []
    ensures c.externalIds(userId, mergeDeclarations).Some? ==>
      var decrypted := DecryptUserExternalIds(c.externalIds(userId, mergeDeclarations).value, c.decrypt, c.locationsByIds);
      (decrypted.None? || !RootOrgIsReadable(user)) ==> r == []
    ensures c.externalIds(userId, mergeDeclarations).Some? ==>
      var decrypted := DecryptUserExternalIds(c.externalIds(userId, mergeDeclarations).value, c.decrypt, c.locationsByIds);
      decrypted.Some? && RootOrgIsReadable(user) ==>
      var rows := decrypted.value;
      if RemapApplies(rows, StrAt(user, Keys.RootOrgId)) then
        && (!ChannelIsReadable(user) ==> r == [])
        && (ChannelIsReadable(user) ==>
              && r == RemapProviders(rows, Get(user, Keys.Channel))
              && |r| == |rows|
              && forall i :: 0 <= i < |rows| ==>
                   && Get(r[i], Keys.Provider) == Get(user, Keys.Channel)
                   && Get(r[i], Keys.IdType) == (if rows[i][Keys.Provider] != Null && rows[i][Keys.Provider] == rows[i][Keys.IdType]
                                                 then Get(user, Keys.Channel) else rows[i][Keys.IdType])
                   && Get(r[i], Keys.Id) == rows[i][Keys.Id]
                   && forall k :: k in rows[i] && k != Keys.Provider && k != Keys.IdType ==> r[i][k] == rows[i][k])
      else r == c.normaliseProviders(rows).GetOr([])
  {
    match c.externalIds(userId, mergeDeclarations)
    case None => []
    case Some(stored) =>
      match DecryptUserExternalIds(stored, c.decrypt, c.locationsByIds)
      case None => []
      case Some(rows) =>
        if !RootOrgIsReadable(user) then []
        else if !RemapApplies(rows, StrAt(user, Keys.RootOrgId)) then c.normaliseProviders(rows).GetOr([])
        else if !ChannelIsReadable(user) then []
        else RemapProviders(rows, Get(user, Keys.Channel))
  }

  /** Of the profile it is given, the external-id fetch reads only the root
      organisation id and the channel. */
  lemma FetchReadsRootOrgAndChannel(userId: Value, u1: Record, u2: Record, mergeDeclarations: bool, c: Collaborators)
    requires Get(u1, Keys.RootOrgId) == Get(u2, Keys.RootOrgId)
    requires Get(u1, Keys.Channel) == Get(u2, Keys.Channel)
    ensures FetchUserExternalIdentity(userId, u1, mergeDeclarations, c) == FetchUserExternalIdentity(userId, u2, mergeDeclarations, c)
  {
  }
}
