/** `appendUserTypeAndLocation`, `appendMinorFlag`, `addFlagValue`,
    `fetchUserDeclarations` and the decryption steps: the parsed user type and
    location, the derived minor flag, the feature flags, the decrypted
    declarations and the decrypted stored fields. */
module Shaping {
  import opened Wrappers
  import opened Text
  import opened Json
  import Keys
  import opened Env

  /** The keys `appendUserTypeAndLocation` writes or removes. */
  const ShapeKeys: set<string> :=
    {Keys.UserType, Keys.UserSubType, Keys.LocationIds, Keys.ProfileUserType, Keys.ProfileLocation}

  /** The parsed `profileUserType` text: the empty map when the text is missing
      or empty or does not read as a map; null when it is the JSON null. */
  function UserTypeDetails(result: Record, parse: string -> Option<Value>): (r: Value)
    ensures r.Object? || r.Null?
    ensures IsEmpty(StrAt(result, Keys.ProfileUserType)) ==> r == Object(map[])
    ensures !IsEmpty(StrAt(result, Keys.ProfileUserType)) ==>
      var parsed := parse(StrAt(result, Keys.ProfileUserType).value);
      if parsed.Some? && (parsed.value.Null? || parsed.value.Object?) then r == parsed.value else r == Object(map[])
  {
    var raw := StrAt(result, Keys.ProfileUserType);
    if IsEmpty(raw) then Object(map[]) else ReadAsMap(parse, raw.value).GetOr(Object(map[]))
  }

  /** The parsed `profileLocation` text: the empty list when the text is missing
      or empty or does not read as a list of maps; null for the JSON null. */
  function ProfileLocationList(result: Record, parse: string -> Option<Value>): (r: Value)
    ensures r.Null? || (r.Arr? && forall i :: 0 <= i < |r.items| ==> IsMapOrNull(r.items[i]))
    ensures IsEmpty(StrAt(result, Keys.ProfileLocation)) ==> r == Arr([])
    ensures !IsEmpty(StrAt(result, Keys.ProfileLocation)) ==>
      var parsed := parse(StrAt(result, Keys.ProfileLocation).value);
      if ReadAsMapList(parse, StrAt(result, Keys.ProfileLocation).value).Some? then Some(r) == parsed else r == Arr([])
  {
    var raw := StrAt(result, Keys.ProfileLocation);
    if IsEmpty(raw) then Arr([]) else ReadAsMapList(parse, raw.value).GetOr(Arr([]))
  }

  /** The ids of the parsed profile locations, in order; empty when the list
      is empty or holds a null entry (the failed dereference is caught). */
  function ProfileLocationIds(result: Record, parse: string -> Option<Value>): (r: seq<Value>)
    ensures var list := ProfileLocationList(result, parse);
      if list.Arr? && forall i :: 0 <= i < |list.items| ==> list.items[i].Object? then
        |r| == |list.items| && forall i :: 0 <= i < |r| ==> r[i] == Get(list.items[i].fields, Keys.Id)
      else r == []
  {
    var list := ProfileLocationList(result, parse);
    if IsNonEmptyList(list) then IdsOf(list.items, Keys.Id).GetOr([]) else []
  }

  /** The user type and sub-type the V3 read exposes: the parsed map's `type`
      and `subType`, or null for an empty or missing map. */
  function UserTypeField(details: Value, key: string): Value {
    if IsNonEmptyObject(details) then Get(details.fields, key) else Null
  }

  /** The V3 projection: flat user type, sub-type and location ids, then the
      user default block over them. */
  function FlatUserType(result: Record, details: Value, ids: seq<Value>, userDefaults: Record): (r: Record)
    ensures forall k :: k in userDefaults ==> k in r && r[k] == userDefaults[k]
    ensures Keys.UserType !in userDefaults ==> Get(r, Keys.UserType) == UserTypeField(details, Keys.Type)
    ensures Keys.UserSubType !in userDefaults ==> Get(r, Keys.UserSubType) == UserTypeField(details, Keys.SubType)
    ensures Keys.LocationIds !in userDefaults ==> Get(r, Keys.LocationIds) == Arr(ids)
    ensures forall k :: k !in ShapeKeys && k !in userDefaults ==> Get(r, k) == Get(result, k)
  {
    result[Keys.UserType := UserTypeField(details, Keys.Type)]
          [Keys.UserSubType := UserTypeField(details, Keys.SubType)]
          [Keys.LocationIds := Arr(ids)] + userDefaults
  }

  /** `appendUserTypeAndLocation`. The parsed user type and location replace
      their stored text. The V3 read adds the flat user type, sub-type and
      location ids, then the user defaults; every other read drops those three
      keys. Nothing else changes. */
  function AppendUserTypeAndLocation(result: Record, op: Operation, parse: string -> Option<Value>, userDefaults: Record): (r: Record)
    ensures Keys.ProfileUserType in r && r[Keys.ProfileUserType] == UserTypeDetails(result, parse)
    ensures Keys.ProfileLocation in r && r[Keys.ProfileLocation] == ProfileLocationList(result, parse)
    ensures op != GetUserProfileV3 ==> Keys.UserType !in r && Keys.UserSubType !in r && Keys.LocationIds !in r
    ensures op == GetUserProfileV3 ==>
      forall k :: k in userDefaults && k != Keys.ProfileUserType && k != Keys.ProfileLocation ==> Get(r, k) == userDefaults[k]
    ensures op == GetUserProfileV3 && Keys.UserType !in userDefaults ==>
      Get(r, Keys.UserType) == UserTypeField(UserTypeDetails(result, parse), Keys.Type)
    ensures op == GetUserProfileV3 && Keys.UserSubType !in userDefaults ==>
      Get(r, Keys.UserSubType) == UserTypeField(UserTypeDetails(result, parse), Keys.SubType)
    ensures op == GetUserProfileV3 && Keys.LocationIds !in userDefaults ==>
      Get(r, Keys.LocationIds) == Arr(ProfileLocationIds(result, parse))
    ensures forall k :: k !in ShapeKeys && (op != GetUserProfileV3 || k !in userDefaults) ==> Get(r, k) == Get(result, k)
  {
    ShapeKeysDistinct();
    var details := UserTypeDetails(result, parse);
    var shaped :=
      if op == GetUserProfileV3 then FlatUserType(result, details, ProfileLocationIds(result, parse), userDefaults)
      else DropFlatUserType(result);
    PutParsedProfile(shaped, details, ProfileLocationList(result, parse))
  }

  /** The five shaped keys are distinct, and every other key is none of them. */
  lemma ShapeKeysDistinct()
    ensures forall k :: k !in ShapeKeys ==>
      k != Keys.ProfileUserType && k != Keys.ProfileLocation && k != Keys.UserType && k != Keys.UserSubType && k != Keys.LocationIds
    ensures Keys.ProfileUserType != Keys.UserType && Keys.ProfileUserType != Keys.UserSubType && Keys.ProfileUserType != Keys.LocationIds
    ensures Keys.ProfileLocation != Keys.UserType && Keys.ProfileLocation != Keys.UserSubType && Keys.ProfileLocation != Keys.LocationIds
  {
  }

  /** Every read other than V3 drops the flat user type, sub-type and location ids. */
  function DropFlatUserType(result: Record): (r: Record)
    ensures Keys.UserType !in r && Keys.UserSubType !in r && Keys.LocationIds !in r
    ensures forall k :: k != Keys.UserType && k != Keys.UserSubType && k != Keys.LocationIds ==> Get(r, k) == Get(result, k)
  {
    result - {Keys.UserType, Keys.UserSubType, Keys.LocationIds}
  }

  /** The parsed user type and location replace their stored text. */
  function PutParsedProfile(shaped: Record, details: Value, locations: Value): (r: Record)
    ensures Keys.ProfileUserType in r && r[Keys.ProfileUserType] == details
    ensures Keys.ProfileLocation in r && r[Keys.ProfileLocation] == locations
    ensures forall k :: k != Keys.ProfileUserType && k != Keys.ProfileLocation ==> Get(r, k) == Get(shaped, k)
  {
    shaped[Keys.ProfileUserType := details][Keys.ProfileLocation := locations]
  }

  /** A V3 read of a profile whose stored location text is a list of maps
      exposes exactly their ids, in order. */
  lemma V3LocationIdsFollowProfile(
    result: Record, parse: string -> Option<Value>, userDefaults: Record, locations: seq<Record>)
    requires !IsEmpty(StrAt(result, Keys.ProfileLocation))
    requires parse(StrAt(result, Keys.ProfileLocation).value) == Some(Arr(Objects(locations)))
    requires Keys.LocationIds !in userDefaults
    ensures var r := AppendUserTypeAndLocation(result, GetUserProfileV3, parse, userDefaults);
      && Get(r, Keys.LocationIds).Arr?
      && |Get(r, Keys.LocationIds).items| == |locations|
      && forall i :: 0 <= i < |locations| ==> Get(r, Keys.LocationIds).items[i] == Get(locations[i], Keys.Id)
  {
    var raw := StrAt(result, Keys.ProfileLocation).value;
    var list := Arr(Objects(locations));
    assert forall i :: 0 <= i < |list.items| ==> IsMapOrNull(list.items[i]);
    assert ReadAsMapList(parse, raw) == Some(list);
    assert ProfileLocationList(result, parse) == list;
  }

  /** The birth year: `Integer.parseInt(dob.split("-")[0])`. */
  function YearOf(dob: string): Option<int> {
    ParseInt(PrefixBefore(dob, '-'))
  }

  /** Minor: at most 19 years between the birth year and the current year,
      the difference taken in 32-bit arithmetic. Dates of birth are stored as
      the last day of the year, so 18 is completed only on 1 January. */
  predicate IsMinorAt(year: int, currentYear: int) {
    Wrap32(currentYear - year) <= 19
  }

  /** `appendMinorFlag`: with a date of birth, `isMinor` is written; a birth
      year that does not parse is fatal (None); without one, nothing changes. */
  function AppendMinorFlag(result: Record, currentYear: int): (r: Option<Record>)
    ensures IsEmpty(StrAt(result, Keys.Dob)) ==> r == Some(result)
    ensures !IsEmpty(StrAt(result, Keys.Dob)) ==> (r.None? <==> YearOf(StrAt(result, Keys.Dob).value).None?)
    ensures r.Some? && !IsEmpty(StrAt(result, Keys.Dob)) ==>
      Keys.IsMinor in r.value && r.value[Keys.IsMinor] == Bool(IsMinorAt(YearOf(StrAt(result, Keys.Dob).value).value, currentYear))
    ensures r.Some? ==> forall k :: k != Keys.IsMinor ==> Get(r.value, k) == Get(result, k)
  {
    var dob := StrAt(result, Keys.Dob);
    if IsEmpty(dob) then Some(result)
    else
      match YearOf(dob.value)
      case None => None
      case Some(year) => Some(result[Keys.IsMinor := Bool(IsMinorAt(year, currentYear))])
  }

  /** The part of a stored date before the first '-' is its year digits. */
  lemma {:induction false} YearOfStoredDate(year: nat)
    requires year <= MaxInt
    ensures YearOf(FormatNat(year) + "-12-31") == Some(year)
  {
    var d := FormatNat(year);
    assert '-' !in d by {
      forall i | 0 <= i < |d| ensures d[i] != '-' {
        assert IsDigit(d[i]);
      }
    }
    PrefixBeforeSeparator(d, '-', "12-31");
    assert d + "-12-31" == d + ['-'] + "12-31";
    ParseFormatRoundTrip(year);
  }

  /** For a date of birth stored as `<year>-12-31`, the user is a minor exactly
      when the current year is at most 19 past the birth year: 19 years on is
      still a minor, 20 is not. */
  lemma MinorBoundary(result: Record, year: nat, currentYear: int)
    requires year <= MaxInt && 0 <= currentYear <= MaxInt
    requires Get(result, Keys.Dob) == Str(FormatNat(year) + "-12-31")
    ensures AppendMinorFlag(result, currentYear) == Some(result[Keys.IsMinor := Bool(currentYear - year <= 19)])
    ensures currentYear == year + 19 ==> AppendMinorFlag(result, currentYear).value[Keys.IsMinor] == Bool(true)
    ensures currentYear == year + 20 ==> AppendMinorFlag(result, currentYear).value[Keys.IsMinor] == Bool(false)
  {
    YearOfStoredDate(year);
  }

  /** `Integer.parseInt(v.toString())` on the stored flags value: a number in
      int range or a string that parses; null and anything else fail. */
  function FlagsOf(v: Value): (r: Option<int>)
    ensures r.Some? ==> MinInt <= r.value <= MaxInt
    ensures v.Num? && MinInt <= v.n <= MaxInt ==> r == Some(v.n)
    ensures !v.Num? && !v.Str? ==> r.None?
  {
    match v
    case Num(n) => if MinInt <= n <= MaxInt then Some(n) else None
    case Str(s) => ParseInt(s)
    case _ => None
  }

  /** `addFlagValue`: every named flag is written as the decoding of the
      stored flags value; a flags value that does not parse is fatal. */
  function AddFlagValue(result: Record, flagKeys: set<string>, userFlag: (int, string) -> bool): (r: Option<Record>)
    ensures r.Some? <==> FlagsOf(Get(result, Keys.FlagsValue)).Some?
    ensures r.Some? ==> forall k :: k in flagKeys ==>
      k in r.value && r.value[k] == Bool(userFlag(FlagsOf(Get(result, Keys.FlagsValue)).value, k))
    ensures r.Some? ==> forall k :: k !in flagKeys ==> Get(r.value, k) == Get(result, k)
  {
    match FlagsOf(Get(result, Keys.FlagsValue))
    case None => None
    case Some(n) => Some(result + map k | k in flagKeys :: Bool(userFlag(n, k)))
  }

  /** A flags value stored as its decimal text decodes like the number. */
  lemma FlagsTextRoundTrip(n: nat)
    requires n <= MaxInt
    ensures FlagsOf(Str(FormatNat(n))) == FlagsOf(Num(n)) == Some(n)
  {
    ParseFormatRoundTrip(n);
  }

  /** `UserUtil.getDecryptedData` on one value: strings are decrypted, a null
      stays null. */
  function DecryptValue(v: Value, decrypt: string -> string): (r: Value)
    ensures v.Str? ==> r == Str(decrypt(v.s))
    ensures !v.Str? ==> r == v
  {
    if v.Str? then Str(decrypt(v.s)) else v
  }

  /** `decryptDeclarationFields`: the declared email and phone, where present,
      are decrypted; no key is added or dropped and nothing else changes. */
  function DecryptDeclarationFields(info: Record, decrypt: string -> string): (r: Record)
    ensures forall k :: k in r <==> k in info
    ensures Keys.DeclaredEmail in info ==> r[Keys.DeclaredEmail] == DecryptValue(info[Keys.DeclaredEmail], decrypt)
    ensures Keys.DeclaredPhone in info ==> r[Keys.DeclaredPhone] == DecryptValue(info[Keys.DeclaredPhone], decrypt)
    ensures forall k :: k in info && k != Keys.DeclaredEmail && k != Keys.DeclaredPhone ==> r[k] == info[k]
  {
    var m := if Keys.DeclaredEmail in info then info[Keys.DeclaredEmail := DecryptValue(info[Keys.DeclaredEmail], decrypt)] else info;
    if Keys.DeclaredPhone in m then m[Keys.DeclaredPhone := DecryptValue(m[Keys.DeclaredPhone], decrypt)] else m
  }

  /** With a decryption that inverts the encryption, encrypted declared
      contacts come back in clear. */
  lemma DeclaredContactsInClear(info: Record, decrypt: string -> string, encrypt: string -> string, email: string, phone: string)
    requires forall p :: decrypt(encrypt(p)) == p
    requires Get(info, Keys.DeclaredEmail) == Str(encrypt(email))
    requires Get(info, Keys.DeclaredPhone) == Str(encrypt(phone))
    ensures Get(DecryptDeclarationFields(info, decrypt), Keys.DeclaredEmail) == Str(email)
    ensures Get(DecryptDeclarationFields(info, decrypt), Keys.DeclaredPhone) == Str(phone)
  {
  }

  /** The keys of one returned declaration. */
  const DeclarationKeys: set<string> := {Keys.Status, Keys.ErrorType, Keys.OrgId, Keys.Persona, Keys.Info}

  /** The declared fields of one row, decrypted when they form a non-empty map. */
  function DeclaredInfo(v: Value, decrypt: string -> string): (r: Value)
    ensures IsNonEmptyObject(v) ==> r == Object(DecryptDeclarationFields(v.fields, decrypt))
    ensures !IsNonEmptyObject(v) ==> r == v
  {
    if IsNonEmptyObject(v) then Object(DecryptDeclarationFields(v.fields, decrypt)) else v
  }

  /** `fetchUserDeclarations`: one five-key declaration per stored row, in
      order. */
  function FetchUserDeclarations(rows: seq<Record>, decrypt: string -> string): (r: seq<Record>)
    ensures |r| == |rows|
    ensures forall i, k :: 0 <= i < |rows| ==> (k in r[i] <==> k in DeclarationKeys)
    ensures forall i :: 0 <= i < |rows| ==>
      && r[i][Keys.Status] == Get(rows[i], Keys.Status)
      && r[i][Keys.ErrorType] == Get(rows[i], Keys.ErrorType)
      && r[i][Keys.OrgId] == Get(rows[i], Keys.OrgId)
      && r[i][Keys.Persona] == Get(rows[i], Keys.Persona)
      && r[i][Keys.Info] == DeclaredInfo(Get(rows[i], Keys.UserInfo), decrypt)
  {
    seq(|rows|, i requires 0 <= i < |rows| =>
      map[Keys.Status := Get(rows[i], Keys.Status),
          Keys.ErrorType := Get(rows[i], Keys.ErrorType),
          Keys.OrgId := Get(rows[i], Keys.OrgId),
          Keys.Persona := Get(rows[i], Keys.Persona),
          Keys.Info := DeclaredInfo(Get(rows[i], Keys.UserInfo), decrypt)])
  }

  /** `UserUtility.decryptUserDataFrmES`: the configured encrypted fields are
      decrypted in place; no key is added or dropped. */
  function DecryptProfile(m: Record, encryptedKeys: set<string>, decrypt: string -> string): (r: Record)
    ensures forall k :: k in r <==> k in m
    ensures forall k :: k in m && k in encryptedKeys ==> r[k] == DecryptValue(m[k], decrypt)
    ensures forall k :: k in m && k !in encryptedKeys ==> r[k] == m[k]
    ensures forall k :: !Get(m, k).Str? ==> Get(r, k) == Get(m, k)
  {
    map k | k in m :: if k in encryptedKeys then DecryptValue(m[k], decrypt) else m[k]
  }
}
