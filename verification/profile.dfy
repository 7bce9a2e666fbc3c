/** The whole profile read (`getUserProfileData`), as a pipeline of stages
    over the modules above, and the end-to-end guarantees it gives. */
module ProfileRead {
  import opened Wrappers
  import opened Text
  import opened Json
  import Keys
  import opened Env
  import Identity
  import Orgs
  import Shaping
  import Delegation
  import ExternalIds
  import ExtraFields
  import Consent

  /** The root organisation as returned: a found organisation gets the
      organisation defaults, which the V4 read then removes again; a missing
      one is returned as it is. */
  function RootOrgView(org: Record, orgDefaults: Record, op: Operation): (r: Record)
    ensures |org| == 0 ==> r == org
    ensures |org| > 0 && op == GetUserProfileV4 ==> forall k :: k in orgDefaults ==> k !in r
    ensures |org| > 0 && op != GetUserProfileV4 ==> forall k :: k in orgDefaults ==> k in r && r[k] == orgDefaults[k]
    ensures forall k :: k !in orgDefaults ==> Get(r, k) == Get(org, k)
  {
    if |org| == 0 then org
    else
      var full := WithDefaults(org, orgDefaults);
      if op == GetUserProfileV4 then WithoutKeys(full, orgDefaults.Keys) else full
  }

  /** `keys.forEach(result::remove)`. */
  function WithoutKeys(m: Record, keys: set<string>): (r: Record)
    ensures forall k :: k in keys ==> k !in r
    ensures forall k :: k !in keys ==> Get(r, k) == Get(m, k)
  {
    m - keys
  }

  /** `result.putAll(defaults)`. */
  function WithDefaults(m: Record, defaults: Record): (r: Record)
    ensures forall k :: k in defaults ==> k in r && r[k] == defaults[k]
    ensures forall k :: k !in defaults ==> Get(r, k) == Get(m, k)
  {
    m + defaults
  }

  /** The root organisation the profile names, and the live memberships of
      the user. */
  function AttachOrgs(shaped: Record, req: Request, c: Collaborators, s: Snapshot): (r: Record)
    ensures Get(r, Keys.RootOrg) == Object(RootOrgView(c.orgById(StrAt(r, Keys.RootOrgId)), s.orgDefaults, req.operation))
    ensures Get(r, Keys.Organisations) ==
      Arr(Objects(Orgs.FetchUserOrgList(c.userOrgRows(Get(r, Keys.Id)), c.associationFlags)))
    ensures forall k :: k != Keys.RootOrg && k != Keys.Organisations ==> Get(r, k) == Get(shaped, k)
  {
    var rootOrg := RootOrgView(c.orgById(StrAt(shaped, Keys.RootOrgId)), s.orgDefaults, req.operation);
    shaped[Keys.RootOrg := Object(rootOrg)]
          [Keys.Organisations := Arr(Objects(Orgs.FetchUserOrgList(c.userOrgRows(Get(shaped, Keys.Id)), c.associationFlags)))]
  }

  /** Lines 81-97: user type and location, the user defaults, the root
      organisation the profile names, and the live memberships of the user. */
  function Assemble(loaded: Record, req: Request, c: Collaborators, s: Snapshot): (r: Record)
    ensures Get(r, Keys.RootOrg) == Object(RootOrgView(c.orgById(StrAt(r, Keys.RootOrgId)), s.orgDefaults, req.operation))
    ensures Get(r, Keys.Organisations) ==
      Arr(Objects(Orgs.FetchUserOrgList(c.userOrgRows(Get(r, Keys.Id)), c.associationFlags)))
    ensures forall k :: k in s.userDefaults && k != Keys.RootOrg && k != Keys.Organisations ==> Get(r, k) == s.userDefaults[k]
    ensures forall k :: k !in Shaping.ShapeKeys && k !in s.userDefaults && k != Keys.RootOrg && k != Keys.Organisations ==>
      Get(r, k) == Get(loaded, k)
  {
    var shaped := Shaping.AppendUserTypeAndLocation(loaded, req.operation, c.parseJson, s.userDefaults);
    AttachOrgs(WithDefaults(shaped, s.userDefaults), req, c, s)
  }

  /** The reader is the user, or the user the request is made for, and no
      field list was given: the full external ids are attached. */
  predicate SelfRead(userId: string, req: Request) {
    && !IsBlank(Some(userId))
    && (EqualsIgnoreCase(userId, req.requestedBy) || EqualsIgnoreCase(userId, req.managedFor))
    && IsBlank(req.fields)
  }

  /** The managed-by check against the assembled profile. */
  predicate ForeignManagedRead(assembled: Record, req: Request) {
    Delegation.AuthorizeManagedRead(req.isPrivate, StrAt(assembled, Keys.ManagedBy), req.requestedBy).Fail?
  }

  /** Lines 98-124: the delegation gate, the managed token, and the external
      ids of a self read. */
  function Personalise(assembled: Record, userId: string, req: Request, c: Collaborators): (r: Result<Record, Error>)
    ensures r.Failure? <==> ForeignManagedRead(assembled, req)
    ensures r.Failure? ==> r.error == Unauthorized
    ensures r.Success? && SelfRead(userId, req) ==>
      Get(r.value, Keys.ExternalIds) == Arr(Objects(ExternalIds.FetchUserExternalIdentity(Str(userId), assembled, true, c)))
    ensures r.Success? ==>
      Get(r.value, Keys.ManagedToken) == Get(Delegation.GetManagedToken(
        assembled, req.withTokens, req.managedToken, StrAt(assembled, Keys.ManagedBy), c.issueToken), Keys.ManagedToken)
    ensures r.Success? ==> forall k :: k != Keys.ManagedToken && (k != Keys.ExternalIds || !SelfRead(userId, req)) ==>
      Get(r.value, k) == Get(assembled, k)
  {
    var managedBy := StrAt(assembled, Keys.ManagedBy);
    :- Delegation.AuthorizeManagedRead(req.isPrivate, managedBy, req.requestedBy);
    var withToken := Delegation.GetManagedToken(assembled, req.withTokens, req.managedToken, managedBy, c.issueToken);
    ExternalIds.FetchReadsRootOrgAndChannel(Str(userId), withToken, assembled, true, c);
    if SelfRead(userId, req) then
      Success(withToken[Keys.ExternalIds := Arr(Objects(ExternalIds.FetchUserExternalIdentity(Str(userId), withToken, true, c)))])
    else Success(withToken)
  }

  /** Lines 125-127: the optional sections, when a field list is given; their
      uncaught failures are fatal. */
  function Extend(result: Record, fields: Option<string>, c: Collaborators, s: Snapshot): (r: Result<Record, Error>)
    ensures IsBlank(fields) ==> r == Success(result)
    ensures !IsBlank(fields) ==> (r.Success? <==> ExtraFields.AddExtraFields(result, fields.value, c, s).Some?)
    ensures !IsBlank(fields) && r.Success? ==> r.value == ExtraFields.AddExtraFields(result, fields.value, c, s).value
    ensures r.Failure? ==> r.error == UncheckedException
    ensures r.Success? ==> forall k :: k !in ExtraFields.ExtraKeys ==> Get(r.value, k) == Get(result, k)
  {
    if IsBlank(fields) then Success(result)
    else
      match ExtraFields.AddExtraFields(result, fields.value, c, s)
      case None => Failure(UncheckedException)
      case Some(extended) => Success(extended)
  }

  /** The keys the disclosure stage writes besides decrypting. */
  const DisclosureKeys: set<string> := Consent.TncKeys + {Keys.EncEmail, Keys.EncPhone, Keys.AllTncAccepted}

  /** Lines 128-143: stored fields decrypted, the still encrypted email and
      phone exposed to a private read, the consent state, and the accepted
      terms reshaped. */
  function Disclose(result: Record, req: Request, c: Collaborators, s: Snapshot): (r: Record)
    ensures req.isPrivate ==> Get(r, Keys.EncEmail) == OfStr(StrAt(result, Keys.Email))
    ensures req.isPrivate ==> Get(r, Keys.EncPhone) == OfStr(StrAt(result, Keys.Phone))
    ensures !req.isPrivate && (Keys.EncEmail !in s.encryptedKeys || !Get(result, Keys.EncEmail).Str?) ==>
      Get(r, Keys.EncEmail) == Get(result, Keys.EncEmail)
    ensures !req.isPrivate && (Keys.EncPhone !in s.encryptedKeys || !Get(result, Keys.EncPhone).Str?) ==>
      Get(r, Keys.EncPhone) == Get(result, Keys.EncPhone)
    ensures forall k :: k !in DisclosureKeys && (k !in s.encryptedKeys || !Get(result, k).Str?) ==>
      Get(r, k) == Get(result, k)
  {
    var encEmail := OfStr(StrAt(result, Keys.Email));
    var encPhone := OfStr(StrAt(result, Keys.Phone));
    var decrypted := Shaping.DecryptProfile(result, s.encryptedKeys, c.decrypt);
    var exposed := if req.isPrivate then decrypted[Keys.EncPhone := encPhone][Keys.EncEmail := encEmail] else decrypted;
    var tnc := Consent.UpdateTnc(exposed, s.tncSetting, c.parseJson);
    ExposedKeysAreNoConsentKeys();
    if Get(tnc, Keys.AllTncAccepted) != Null then tnc[Keys.AllTncAccepted := c.convertTnc(Get(tnc, Keys.AllTncAccepted))]
    else tnc
  }

  /** The exposed email and phone are neither consent keys nor the accepted terms. */
  lemma ExposedKeysAreNoConsentKeys()
    ensures Keys.EncEmail !in Consent.TncKeys && Keys.EncPhone !in Consent.TncKeys
    ensures Keys.EncEmail != Keys.AllTncAccepted && Keys.EncPhone != Keys.AllTncAccepted
  {
  }

  /** Lines 144-152: the feature flags and the minor flag (a malformed value
      of either is fatal), the `identifier` alias of the user id, and for V4
      the user default keys removed. */
  function Finalise(result: Record, userId: string, op: Operation, c: Collaborators, s: Snapshot): (r: Result<Record, Error>)
    ensures r.Failure? ==> r.error == UncheckedException
    ensures Shaping.FlagsOf(Get(result, Keys.FlagsValue)).None? ==> r.Failure?
    ensures r.Success? && (op != GetUserProfileV4 || Keys.Identifier !in s.userDefaults) ==>
      Keys.Identifier in r.value && r.value[Keys.Identifier] == Str(userId)
    ensures r.Success? && op == GetUserProfileV4 ==> forall k :: k in s.userDefaults ==> k !in r.value
    ensures r.Success? ==>
      forall k :: k !in s.flagKeys && k != Keys.IsMinor && k != Keys.Identifier && (op != GetUserProfileV4 || k !in s.userDefaults) ==>
        Get(r.value, k) == Get(result, k)
  {
    match Shaping.AddFlagValue(result, s.flagKeys, c.userFlag)
    case None => Failure(UncheckedException)
    case Some(flagged) =>
      match Shaping.AppendMinorFlag(flagged, s.currentYear)
      case None => Failure(UncheckedException)
      case Some(minor) =>
        var identified := minor[Keys.Identifier := Str(userId)];
        Success(if op == GetUserProfileV4 then identified - s.userDefaults.Keys else identified)
  }

  /** Every key the stages after the gate leave alone, for a value that is
      not a string (decryption only touches strings). */
  predicate UntouchedAfterGate(k: string, op: Operation, s: Snapshot) {
    && k !in ExtraFields.ExtraKeys && k !in DisclosureKeys
    && k !in s.flagKeys && k != Keys.IsMinor && k != Keys.Identifier
    && (op != GetUserProfileV4 || k !in s.userDefaults)
  }

  /** A non-string key of the assembled profile that neither the gate stage
      nor any later stage writes. */
  predicate UntouchedFromGate(k: string, assembled: Record, op: Operation, s: Snapshot) {
    UntouchedAfterGate(k, op, s) && k != Keys.ManagedToken && k != Keys.ExternalIds && !Get(assembled, k).Str?
  }

  /** Lines 125-152: the stages after the delegation gate. They fail only
      with an unchecked exception. */
  function AfterGate(personal: Record, userId: string, req: Request, c: Collaborators, s: Snapshot): (r: Result<Record, Error>)
    ensures r.Failure? ==> r.error == UncheckedException
    ensures r.Success? && (req.operation != GetUserProfileV4 || Keys.Identifier !in s.userDefaults) ==>
      Keys.Identifier in r.value && r.value[Keys.Identifier] == Str(userId)
    ensures r.Success? && req.operation == GetUserProfileV4 ==> forall k :: k in s.userDefaults ==> k !in r.value
    ensures r.Success? ==> forall k :: UntouchedAfterGate(k, req.operation, s) && !Get(personal, k).Str? ==>
      Get(r.value, k) == Get(personal, k)
  {
    var extended :- Extend(personal, req.fields, c, s);
    Finalise(Disclose(extended, req, c, s), userId, req.operation, c, s)
  }

  /** Lines 98-152, from the assembled profile on. The only unauthorized
      outcome is the delegation gate's. */
  function FromAssembled(assembled: Record, userId: string, req: Request, c: Collaborators, s: Snapshot): (r: Result<Record, Error>)
    ensures r == Failure(Unauthorized) <==> ForeignManagedRead(assembled, req)
    ensures r.Failure? ==> r.error == Unauthorized || r.error == UncheckedException
    ensures r.Success? && (req.operation != GetUserProfileV4 || Keys.Identifier !in s.userDefaults) ==>
      Keys.Identifier in r.value && r.value[Keys.Identifier] == Str(userId)
    ensures r.Success? && req.operation == GetUserProfileV4 ==> forall k :: k in s.userDefaults ==> k !in r.value
    ensures r.Success? ==> forall k :: UntouchedFromGate(k, assembled, req.operation, s) ==>
      Get(r.value, k) == Get(assembled, k)
  {
    var personal :- Personalise(assembled, userId, req, c);
    AfterGate(personal, userId, req, c, s)
  }

  /** `getUserProfileData`: resolve the id, load the profile, assemble it,
      check the delegation, add the requested sections, disclose and
      finalise. */
  function GetUserProfileData(req: Request, c: Collaborators, s: Snapshot): (r: Result<Record, Error>)
    ensures !IsBlank(req.provider) && IsBlank(req.idType) ==> r == Failure(MandatoryParamsMissing(Keys.IdType))
    ensures var resolved := Identity.ResolveUserId(req.userId, req.idType, req.provider, c.externalIdToUser);
      resolved.Failure? ==> r == Failure(resolved.error)
    ensures var resolved := Identity.ResolveUserId(req.userId, req.idType, req.provider, c.externalIdToUser);
      resolved.Success? && Identity.LoadProfile(c.userById(resolved.value), s.privateFields).Failure? ==>
        r == Failure(Identity.LoadProfile(c.userById(resolved.value), s.privateFields).error)
    ensures var resolved := Identity.ResolveUserId(req.userId, req.idType, req.provider, c.externalIdToUser);
      resolved.Success? && Identity.LoadProfile(c.userById(resolved.value), s.privateFields).Success? && r.Failure? ==>
        r.error == Unauthorized || r.error == UncheckedException
    ensures r.Success? ==> Identity.ResolveUserId(req.userId, req.idType, req.provider, c.externalIdToUser).Success?
    ensures r.Success? ==>
      var userId := Identity.ResolveUserId(req.userId, req.idType, req.provider, c.externalIdToUser).value;
      && Identity.LoadProfile(c.userById(userId), s.privateFields).Success?
      && (req.operation != GetUserProfileV4 || Keys.Identifier !in s.userDefaults ==>
            Keys.Identifier in r.value && r.value[Keys.Identifier] == Str(userId))
    ensures r.Success? && req.operation == GetUserProfileV4 ==> forall k :: k in s.userDefaults ==> k !in r.value
  {
    var userId :- Identity.ResolveUserId(req.userId, req.idType, req.provider, c.externalIdToUser);
    var loaded :- Identity.LoadProfile(c.userById(userId), s.privateFields);
    FromAssembled(Assemble(loaded, req, c, s), userId, req, c, s)
  }

  /** The stage at which the delegation gate runs: the assembled profile, when
      the id resolves and the profile loads. */
  function AssembledFor(req: Request, c: Collaborators, s: Snapshot): Option<Record> {
    var resolved := Identity.ResolveUserId(req.userId, req.idType, req.provider, c.externalIdToUser);
    if resolved.Failure? then None
    else
      var loaded := Identity.LoadProfile(c.userById(resolved.value), s.privateFields);
      if loaded.Failure? then None else Some(Assemble(loaded.value, req, c, s))
  }

  /** A read fails as unauthorized exactly when the profile it assembles is
      managed by someone other than the requester and the read is not private:
      no other stage reports that error. */
  lemma UnauthorizedIffForeignManagedRead(req: Request, c: Collaborators, s: Snapshot)
    ensures GetUserProfileData(req, c, s) == Failure(Unauthorized) <==>
      AssembledFor(req, c, s).Some? && ForeignManagedRead(AssembledFor(req, c, s).value, req)
  {
    var resolved := Identity.ResolveUserId(req.userId, req.idType, req.provider, c.externalIdToUser);
    if resolved.Success? {
      var loaded := Identity.LoadProfile(c.userById(resolved.value), s.privateFields);
      if loaded.Success? {
        assert GetUserProfileData(req, c, s) == FromAssembled(Assemble(loaded.value, req, c, s), resolved.value, req, c, s);
      } else {
        assert loaded.error == UserNotFound || loaded.error == UserAccountLocked;
      }
    }
  }

  /** A private read is never refused by the delegation gate. */
  lemma PrivateReadNeverUnauthorized(req: Request, c: Collaborators, s: Snapshot)
    requires req.isPrivate
    ensures GetUserProfileData(req, c, s) != Failure(Unauthorized)
  {
    UnauthorizedIffForeignManagedRead(req, c, s);
  }

  /** A public read of a stored profile managed by someone other than the
      requester is refused, provided the user defaults do not overwrite the
      manager. */
  lemma ManagedProfileRefusedToOthers(req: Request, c: Collaborators, s: Snapshot, userId: string, loaded: Record)
    requires Identity.ResolveUserId(req.userId, req.idType, req.provider, c.externalIdToUser) == Success(userId)
    requires Identity.LoadProfile(c.userById(userId), s.privateFields) == Success(loaded)
    requires Keys.ManagedBy !in s.userDefaults
    requires !req.isPrivate
    requires !IsEmpty(StrAt(loaded, Keys.ManagedBy))
    requires req.requestedBy != StrAt(loaded, Keys.ManagedBy)
    ensures GetUserProfileData(req, c, s) == Failure(Unauthorized)
  {
    assert Keys.ManagedBy !in Shaping.ShapeKeys;
    assert StrAt(Assemble(loaded, req, c, s), Keys.ManagedBy) == StrAt(loaded, Keys.ManagedBy);
    UnauthorizedIffForeignManagedRead(req, c, s);
  }

  /** The V4 read returns the root organisation without any organisation
      default key, provided neither the user defaults nor a feature flag reuse
      the root organisation's key. */
  lemma V4RootOrgHasNoOrgDefaults(req: Request, c: Collaborators, s: Snapshot)
    requires req.operation == GetUserProfileV4
    requires Keys.RootOrg !in s.userDefaults && Keys.RootOrg !in s.flagKeys
    ensures var r := GetUserProfileData(req, c, s);
      r.Success? ==> Get(r.value, Keys.RootOrg).Object? && forall k :: k in s.orgDefaults ==> k !in Get(r.value, Keys.RootOrg).fields
  {
    if GetUserProfileData(req, c, s).Success? {
      var userId := Identity.ResolveUserId(req.userId, req.idType, req.provider, c.externalIdToUser).value;
      var loaded := Identity.LoadProfile(c.userById(userId), s.privateFields).value;
      var assembled := Assemble(loaded, req, c, s);
      var view := RootOrgView(c.orgById(StrAt(assembled, Keys.RootOrgId)), s.orgDefaults, req.operation);
      assert Get(assembled, Keys.RootOrg) == Object(view);
      RootOrgIsNoStageKey();
      assert UntouchedFromGate(Keys.RootOrg, assembled, req.operation, s);
      var r := FromAssembled(assembled, userId, req, c, s);
      assert GetUserProfileData(req, c, s) == r;
      assert Get(r.value, Keys.RootOrg) == Object(view);
    }
  }

  /** No stage after the gate writes the root organisation's key. */
  lemma RootOrgIsNoStageKey()
    ensures Keys.RootOrg !in ExtraFields.ExtraKeys && Keys.RootOrg !in DisclosureKeys
    ensures Keys.RootOrg != Keys.IsMinor && Keys.RootOrg != Keys.Identifier
    ensures Keys.RootOrg != Keys.ManagedToken && Keys.RootOrg != Keys.ExternalIds
  {
    assert |Keys.RootOrg| == 7;
  }
}
