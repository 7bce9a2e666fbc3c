/** `updateTnc`: the terms-and-conditions state of a profile, from the
    `tncConfig` system setting. */
module Consent {
  import opened Wrappers
  import opened Text
  import opened Json
  import Keys

  /** The three keys the consent step may write. */
  const TncKeys: set<string> := {Keys.TncLatestVersion, Keys.PromptTnc, Keys.TncLatestVersionUrl}

  /** The parsed setting: None when it is missing, unparsable, null or empty. */
  function ConfigOf(setting: Option<string>, parse: string -> Option<Value>): (r: Option<Record>)
    ensures r.Some? ==> |r.value| > 0
    ensures r.Some? ==> setting.Some? && parse(setting.value) == Some(Object(r.value))
    ensures (setting.Some? && parse(setting.value).Some? && IsNonEmptyObject(parse(setting.value).value))
      ==> r == Some(parse(setting.value).value.fields)
  {
    match setting
    case None => None
    case Some(raw) =>
      match ReadAsMap(parse, raw)
      case Some(Object(m)) => if |m| > 0 then Some(m) else None
      case _ => None
  }

  /** The latest version the configuration names, when it is a string or null
      (any other value makes the cast throw before anything is written). */
  predicate LatestIsReadable(config: Record) {
    var v := Get(config, Keys.LatestVersion);
    v.Str? || v.Null?
  }

  /** The accepted version the profile holds, when it is a string or null
      (any other value makes the cast throw once the latest version is written). */
  predicate AcceptedIsReadable(userMap: Record) {
    var v := Get(userMap, Keys.TncAcceptedVersion);
    v.Str? || v.Null?
  }

  /** The disclosure URL of the latest version: defined when the latest version
      is a key of the configuration whose entry is a map with a string or null
      `url`; otherwise the lookup throws. */
  function LatestUrl(config: Record): (r: Option<Value>)
    ensures r.Some? ==> r.value.Str? || r.value.Null?
    ensures r.Some? ==>
      var latest := Get(config, Keys.LatestVersion);
      latest.Str? && latest.s in config && config[latest.s].Object? && r.value == Get(config[latest.s].fields, Keys.Url)
    ensures var latest := Get(config, Keys.LatestVersion);
      latest.Str? && latest.s in config && config[latest.s].Object? && Get(config[latest.s].fields, Keys.Url).Str? ==>
        r == Some(Get(config[latest.s].fields, Keys.Url))
  {
    var latest := Get(config, Keys.LatestVersion);
    if latest.Str? && latest.s in config && config[latest.s].Object? then
      var url := Get(config[latest.s].fields, Keys.Url);
      if url.Str? || url.Null? then Some(url) else None
    else None
  }

  /** The user must be prompted: no accepted version, an accepted version other
      than the latest (ignoring case), or no acceptance time. */
  predicate PromptNeeded(accepted: Option<string>, latest: string, acceptedOn: Value) {
    IsEmpty(accepted) || !EqualsIgnoreCase(accepted.value, Some(latest)) || acceptedOn == Null
  }

  /** `updateTnc`. With no usable configuration nothing is written. Otherwise
      the latest version is written; an unreadable accepted version stops there.
      Then `promptTnc` is set to false, and when the latest version has a URL
      entry, the URL is written and `promptTnc` says whether the user must
      accept again. Every other key keeps its value. */
  function UpdateTnc(userMap: Record, setting: Option<string>, parse: string -> Option<Value>): (r: Record)
    ensures ConfigOf(setting, parse).None? ==> r == userMap
    ensures ConfigOf(setting, parse).Some? && !LatestIsReadable(ConfigOf(setting, parse).value) ==> r == userMap
    ensures ConfigOf(setting, parse).Some? && LatestIsReadable(ConfigOf(setting, parse).value) ==>
      var config := ConfigOf(setting, parse).value;
      && Get(r, Keys.TncLatestVersion) == Get(config, Keys.LatestVersion)
      && (!AcceptedIsReadable(userMap) ==>
            && Get(r, Keys.PromptTnc) == Get(userMap, Keys.PromptTnc)
            && Get(r, Keys.TncLatestVersionUrl) == Get(userMap, Keys.TncLatestVersionUrl))
      && (AcceptedIsReadable(userMap) && LatestUrl(config).None? ==>
            && Get(r, Keys.PromptTnc) == Bool(false)
            && Get(r, Keys.TncLatestVersionUrl) == Get(userMap, Keys.TncLatestVersionUrl))
      && (AcceptedIsReadable(userMap) && LatestUrl(config).Some? ==>
            && Get(r, Keys.TncLatestVersionUrl) == LatestUrl(config).value
            && Get(r, Keys.PromptTnc) == Bool(PromptNeeded(
                 StrAt(userMap, Keys.TncAcceptedVersion), Get(config, Keys.LatestVersion).s, Get(userMap, Keys.TncAcceptedOn))))
    ensures forall k :: k !in TncKeys ==> Get(r, k) == Get(userMap, k)
  {
    match ConfigOf(setting, parse)
    case None => userMap
    case Some(config) =>
      var latest := Get(config, Keys.LatestVersion);
      if !(latest.Str? || latest.Null?) then userMap
      else
        var m1 := userMap[Keys.TncLatestVersion := latest];
        if !AcceptedIsReadable(m1) then m1
        else
          var accepted := StrAt(m1, Keys.TncAcceptedVersion);
          var acceptedOn := Get(m1, Keys.TncAcceptedOn);
          var m2 := m1[Keys.PromptTnc := Bool(false)];
          match LatestUrl(config)
          case None => m2
          case Some(url) =>
            var m3 := m2[Keys.TncLatestVersionUrl := url];
            var prompt := PromptNeeded(accepted, latest.s, acceptedOn) && latest.s in config;
            m3[Keys.PromptTnc := Bool(prompt)]
  }

  /** With a readable configuration whose latest version has an entry, the user
      is left unprompted exactly when they accepted that version (in any letter
      case) and the acceptance time is recorded. */
  lemma {:induction false} NoPromptIffAcceptedLatest(userMap: Record, setting: Option<string>, parse: string -> Option<Value>)
    requires ConfigOf(setting, parse).Some?
    requires LatestUrl(ConfigOf(setting, parse).value).Some?
    requires AcceptedIsReadable(userMap)
    ensures var config := ConfigOf(setting, parse).value;
      var latest := Get(config, Keys.LatestVersion).s;
      var accepted := StrAt(userMap, Keys.TncAcceptedVersion);
      Get(UpdateTnc(userMap, setting, parse), Keys.PromptTnc) == Bool(false) <==>
        && !IsEmpty(accepted)
        && EqualsIgnoreCase(accepted.value, Some(latest))
        && Get(userMap, Keys.TncAcceptedOn) != Null
  {
    var config := ConfigOf(setting, parse).value;
    assert LatestIsReadable(config);
  }

  /** A stored accepted version that is neither text nor null stops the step
      right after the latest version is written: no prompt, no URL. */
  lemma UnreadableAcceptanceWritesOnlyLatest(userMap: Record, setting: Option<string>, parse: string -> Option<Value>)
    requires ConfigOf(setting, parse).Some? && LatestIsReadable(ConfigOf(setting, parse).value)
    requires !AcceptedIsReadable(userMap)
    ensures UpdateTnc(userMap, setting, parse) ==
      userMap[Keys.TncLatestVersion := Get(ConfigOf(setting, parse).value, Keys.LatestVersion)]
  {
  }

  /** Letter case does not matter: a user who accepted "V2" when the latest is
      "v2", with an acceptance time, is not prompted. */
  lemma CaseInsensitiveAcceptance(userMap: Record, setting: Option<string>, parse: string -> Option<Value>)
    requires ConfigOf(setting, parse).Some?
    requires Get(ConfigOf(setting, parse).value, Keys.LatestVersion) == Str("v2")
    requires LatestUrl(ConfigOf(setting, parse).value).Some?
    requires Get(userMap, Keys.TncAcceptedVersion) == Str("V2")
    requires Get(userMap, Keys.TncAcceptedOn) == Num(1)
    ensures Get(UpdateTnc(userMap, setting, parse), Keys.PromptTnc) == Bool(false)
  {
    NoPromptIffAcceptedLatest(userMap, setting, parse);
    assert EqualsIgnoreCase("V2", Some("v2"));
  }
}
