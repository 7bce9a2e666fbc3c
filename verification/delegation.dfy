/** The managed-by check of `getUserProfileData` and `getManagedToken`: who
    may read a managed profile, and the token a managing user receives for it. */
module Delegation {
  import opened Wrappers
  import opened Text
  import opened Json
  import Keys
  import opened Env

  /** The read is refused when it is not a private view, the profile is
      managed, and the requester is not (case-sensitively) its manager. */
  function AuthorizeManagedRead(isPrivate: bool, managedBy: Option<string>, requestedBy: Option<string>): (r: Outcome<Error>)
    ensures r.Fail? <==> !isPrivate && !IsEmpty(managedBy) && requestedBy != managedBy
    ensures r.Fail? ==> r.error == Unauthorized
    ensures isPrivate ==> r == Pass
    ensures requestedBy == managedBy ==> r == Pass
    ensures IsEmpty(managedBy) ==> r == Pass
  {
    if !isPrivate && !IsEmpty(managedBy) && requestedBy != managedBy then Fail(Unauthorized) else Pass
  }

  /** A private view is never refused, whoever asks. */
  lemma PrivateViewAlwaysAuthorized(managedBy: Option<string>, requestedBy: Option<string>)
    ensures AuthorizeManagedRead(true, managedBy, requestedBy) == Pass
  {
  }

  /** The manager's id in another letter case is refused: the match is exact. */
  lemma ManagerMatchIsCaseSensitive()
    ensures AuthorizeManagedRead(false, Some("Ab"), Some("ab")) == Fail(Unauthorized)
  {
    assert Some("Ab") != Some("ab") by {
      assert "Ab"[0] != "ab"[0];
    }
  }

  /** `Boolean.parseBoolean`: "true" in any letter case; null and every other
      word (including "1" and "yes") are false. */
  function ParseBoolean(s: Option<string>): (r: bool)
    ensures s.None? ==> !r
    ensures r <==>
      && s.Some? && |s.value| == 4
      && s.value[0] in "tT" && s.value[1] in "rR" && s.value[2] in "uU" && s.value[3] in "eE"
    ensures s == Some("true") || s == Some("True") || s == Some("TRUE") ==> r
    ensures s == Some("1") || s == Some("yes") || s == Some("false") ==> !r
  {
    EqualsIgnoreCase("true", s)
  }

  /** `getManagedToken`: when tokens are asked for and the profile is managed,
      the caller's own token is attached if given, otherwise a token issued for
      the manager; nothing else changes, and nothing at all otherwise. */
  function GetManagedToken(
    result: Record, withTokens: Option<string>, managedToken: Option<string>, managedBy: Option<string>,
    issueToken: (string, Record) -> Value): (r: Record)
    ensures !(ParseBoolean(withTokens) && !IsEmpty(managedBy)) ==> r == result
    ensures ParseBoolean(withTokens) && !IsEmpty(managedBy) ==>
      Keys.ManagedToken in r &&
      r[Keys.ManagedToken] == if IsEmpty(managedToken) then issueToken(managedBy.value, result) else Str(managedToken.value)
    ensures forall k :: k != Keys.ManagedToken ==> Get(r, k) == Get(result, k)
  {
    if ParseBoolean(withTokens) && !IsEmpty(managedBy) then
      if IsEmpty(managedToken) then result[Keys.ManagedToken := issueToken(managedBy.value, result)]
      else result[Keys.ManagedToken := Str(managedToken.value)]
    else result
  }
}
