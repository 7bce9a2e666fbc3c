/** What one profile read runs against: the request, the error codes it can
    fail with, the collaborators it calls and the configuration it reads. */
module Env {
  import opened Wrappers
  import opened Json

  /** The fatal outcomes of a read. `UncheckedException` stands for a Java
      runtime exception no step catches (a malformed date of birth or flags
      value, a null entry in the profile location list, two store rows with
      the same id). */
  datatype Error =
    | MandatoryParamsMissing(param: string)
    | ExternalIdNotFound(id: string, idType: string, provider: string)
    | UserNotFound
    | UserAccountLocked
    | Unauthorized
    | UncheckedException

  /** The actor operation, matched case-insensitively in the source. */
  datatype Operation = GetUserProfileV3 | GetUserProfileV4 | OtherRead

  /** The request body and context values the read consumes. `requestedBy`
      and `managedFor` default to the empty string when the context lacks
      them; None is an explicit null. */
  datatype Request = Request(
    userId: string,
    idType: Option<string>,
    provider: Option<string>,
    isPrivate: bool,
    requestedBy: Option<string>,
    managedFor: Option<string>,
    fields: Option<string>,
    withTokens: Option<string>,
    managedToken: Option<string>,
    operation: Operation)

  /** The three association mechanisms an affiliation's bit mask encodes. */
  datatype AssociationFlags = AssociationFlags(sso: bool, selfDeclaration: bool, systemUpload: bool)

  /** Every call out of the service, as an uninterpreted function. A result of
      None is a call that threw. */
  datatype Collaborators = Collaborators(
    // external-identity service: (id, provider, idType) to a user id
    externalIdToUser: (string, string, string) -> Option<string>,
    // user store by id; the empty record is a missing row
    userById: string -> Record,
    // organisation store by root organisation id
    orgById: Option<string> -> Record,
    // affiliation rows of a user
    userOrgRows: Value -> seq<Record>,
    // organisation table, batch by ids
    orgsByIds: seq<Value> -> seq<Value>,
    // location table, batch by a list of ids
    locationsByIds: seq<Value> -> seq<Value>,
    // location table, batch by the set of ids organisations declare
    locationsByIdSet: set<string> -> seq<Value>,
    // self-declaration rows of a user
    declarationRows: Value -> seq<Record>,
    // search index query on the location type, the raw response
    searchLocations: Record -> Option<Record>,
    // external-id rows of a user, with or without declarations merged in
    externalIds: (Value, bool) -> Option<seq<Record>>,
    // generic provider-label normalisation of external-id rows
    normaliseProviders: seq<Record> -> Option<seq<Record>>,
    // JSON parser
    parseJson: string -> Option<Value>,
    // decryption of one stored value
    decrypt: string -> string,
    // encrypted token the managing user gets for a managed profile
    issueToken: (string, Record) -> Value,
    // reshaping of the accepted-terms map
    convertTnc: Value -> Value,
    // association-type bit decoding
    associationFlags: int -> AssociationFlags,
    // feature-flag bit decoding, one named flag at a time
    userFlag: (int, string) -> bool)

  /** Process-wide configuration, read once per request. */
  datatype Snapshot = Snapshot(
    // keys never returned (`ProjectUtil.excludes`)
    privateFields: seq<string>,
    // `Util.getUserDefaultValue()`
    userDefaults: Record,
    // `Util.getOrgDefaultValue()`
    orgDefaults: Record,
    // the raw `tncConfig` system setting; None when it is not set
    tncSetting: Option<string>,
    // the role catalog shown to readers
    readRoles: Value,
    // profile keys whose values are stored encrypted
    encryptedKeys: set<string>,
    // names of the feature flags packed into `flagsValue`
    flagKeys: set<string>,
    // organisation type code of a school
    schoolOrgType: int,
    // the calendar year now
    currentYear: int)
}
