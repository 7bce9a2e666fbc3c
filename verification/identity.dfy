/** `validateProviderAndIdType`, `validateUserIdAndGetUserDetails` and
    `removeUserPrivateField`: which record a read is about, and whether that
    record may be returned at all. */
module Identity {
  import opened Wrappers
  import opened Text
  import opened Json
  import Keys
  import opened Env

  /** A provider needs an id type to go with it. */
  function ValidateProviderAndIdType(provider: Option<string>, idType: Option<string>): (r: Outcome<Error>)
    ensures r.Fail? <==> !IsBlank(provider) && IsBlank(idType)
    ensures r.Fail? ==> r.error == MandatoryParamsMissing(Keys.IdType)
  {
    if !IsBlank(provider) && IsBlank(idType) then Fail(MandatoryParamsMissing(Keys.IdType)) else Pass
  }

  /** The canonical user id: the supplied id itself when no provider is given,
      otherwise what the external-identity service maps (id, provider, idType) to. */
  function ResolveUserId(
    id: string, idType: Option<string>, provider: Option<string>,
    externalIdToUser: (string, string, string) -> Option<string>): (r: Result<string, Error>)
    ensures !IsBlank(provider) && IsBlank(idType) ==> r == Failure(MandatoryParamsMissing(Keys.IdType))
    ensures IsBlank(provider) ==> r == Success(id)
    ensures !IsBlank(provider) && !IsBlank(idType) ==>
      var found := externalIdToUser(id, provider.value, idType.value);
      r == if found.Some? then Success(found.value) else Failure(ExternalIdNotFound(id, idType.value, provider.value))
  {
    var valid := ValidateProviderAndIdType(provider, idType);
    if valid.Fail? then Failure(valid.error)
    else if IsBlank(provider) then Success(id)
    else
      match externalIdToUser(id, provider.value, idType.value)
      case Some(u) => Success(u)
      case None => Failure(ExternalIdNotFound(id, idType.value, provider.value))
  }

  /** The id-type check comes before any lookup: when it fails, or when no
      provider is given, the external-identity service plays no part. */
  lemma ResolveNeedsNoLookup(
    id: string, idType: Option<string>, provider: Option<string>,
    f: (string, string, string) -> Option<string>, g: (string, string, string) -> Option<string>)
    requires IsBlank(provider) || IsBlank(idType)
    ensures ResolveUserId(id, idType, provider, f) == ResolveUserId(id, idType, provider, g)
    ensures ResolveUserId(id, idType, provider, f).Success? <==> IsBlank(provider)
  {
  }

  /** The set of keys a sequence of key names spells. */
  function KeySet(ks: seq<string>): set<string> {
    set i | 0 <= i < |ks| :: ks[i]
  }

  /** The record without the excluded private keys and without `address`, as
      the loop over `ProjectUtil.excludes` removes them one by one. */
  function RemoveUserPrivateField(m: Record, excludes: seq<string>): (r: Record)
    ensures r.Keys == m.Keys - KeySet(excludes) - {Keys.Address}
    ensures forall k :: k in r ==> r[k] == m[k]
    decreases |excludes|
  {
    if |excludes| == 0 then m - {Keys.Address}
    else
      var r := RemoveUserPrivateField(m - {excludes[0]}, excludes[1..]);
      assert KeySet(excludes) == {excludes[0]} + KeySet(excludes[1..]) by {
        forall k | k in KeySet(excludes) ensures k in {excludes[0]} + KeySet(excludes[1..]) {
          var i :| 0 <= i < |excludes| && excludes[i] == k;
          if i > 0 {
            assert excludes[1..][i - 1] == k;
          }
        }
        forall k | k in KeySet(excludes[1..]) ensures k in KeySet(excludes) {
          var i :| 0 <= i < |excludes[1..]| && excludes[1..][i] == k;
          assert excludes[i + 1] == k;
        }
      }
      r
  }

  /** The soft-delete flag of a stored record is set. */
  predicate IsDeletedFlagSet(m: Record) {
    Get(m, Keys.IsDeleted) == Bool(true)
  }

  /** The stored profile, if it exists and is not deleted, with its private
      fields stripped. */
  function LoadProfile(user: Record, excludes: seq<string>): (r: Result<Record, Error>)
    ensures r == Failure(UserNotFound) <==> |user| == 0
    ensures r == Failure(UserAccountLocked) <==> |user| > 0 && IsDeletedFlagSet(user)
    ensures r.Success? <==> |user| > 0 && !IsDeletedFlagSet(user)
    ensures r.Success? ==> r.value.Keys == user.Keys - KeySet(excludes) - {Keys.Address}
    ensures r.Success? ==> forall k :: k in r.value ==> r.value[k] == user[k]
  {
    if |user| == 0 then Failure(UserNotFound)
    else if IsDeletedFlagSet(user) then Failure(UserAccountLocked)
    else Success(RemoveUserPrivateField(user, excludes))
  }

  /** Nothing private leaves the loader: no excluded key, no address, and no
      value that was not stored under the same key. */
  lemma LoadedProfileHidesPrivateFields(user: Record, excludes: seq<string>, k: string)
    requires LoadProfile(user, excludes).Success?
    requires k == Keys.Address || k in excludes
    ensures k !in LoadProfile(user, excludes).value
  {
    if k in excludes {
      var i :| 0 <= i < |excludes| && excludes[i] == k;
      assert k in KeySet(excludes);
    }
  }
}
