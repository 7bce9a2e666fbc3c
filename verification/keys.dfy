/** The map keys the service reads and writes (the `JsonKey` constants). */
module Keys {
  const Id := "id"
  const IdType := "idType"
  const Provider := "provider"
  const UserId := "userId"
  const IsDeleted := "isDeleted"
  const Address := "address"
  const RootOrgId := "rootOrgId"
  const RootOrg := "rootOrg"
  const Organisations := "organisations"
  const ManagedBy := "managedBy"
  const ManagedToken := "managedToken"
  const ExternalIds := "externalIds"
  const Email := "email"
  const Phone := "phone"
  const EncEmail := "encEmail"
  const EncPhone := "encPhone"
  const AllTncAccepted := "allTncAccepted"
  const Identifier := "identifier"
  const Dob := "dob"
  const IsMinor := "isMinor"
  const FlagsValue := "flagsValue"
  const ProfileUserType := "profileUserType"
  const ProfileLocation := "profileLocation"
  const UserType := "userType"
  const UserSubType := "userSubType"
  const LocationIds := "locationIds"
  const Type := "type"
  const SubType := "subType"
  const AssociationType := "associationType"
  const IsSso := "isSSO"
  const IsSelfDeclaration := "isSelfDeclaration"
  const IsSystemUpload := "isSystemUpload"
  const TncLatestVersion := "tncLatestVersion"
  const TncAcceptedVersion := "tncAcceptedVersion"
  const TncAcceptedOn := "tncAcceptedOn"
  const PromptTnc := "promptTnc"
  const TncLatestVersionUrl := "tncLatestVersionUrl"
  const LatestVersion := "latestVersion"
  const Url := "url"
  const OriginalExternalId := "originalExternalId"
  const OriginalIdType := "originalIdType"
  const OriginalProvider := "originalProvider"
  const ExternalId := "externalId"
  const CreatedBy := "createdBy"
  const LastUpdatedBy := "lastUpdatedBy"
  const LastUpdatedOn := "lastUpdatedOn"
  const CreatedOn := "createdOn"
  const Slug := "slug"
  const DeclaredEmail := "declared-email"
  const DeclaredPhone := "declared-phone"
  const DeclaredDistrict := "declared-district"
  const DeclaredState := "declared-state"
  const LastLoginTime := "lastLoginTime"
  const Topic := "topic"
  const Topics := "topics"
  const Roles := "roles"
  const RoleList := "roleList"
  const Locations := "locations"
  const UserLocations := "userLocations"
  const Declarations := "declarations"
  const OrganisationId := "organisationId"
  const OrgName := "orgName"
  const Channel := "channel"
  const HashTagId := "hashTagId"
  const OrgLocation := "orgLocation"
  const OrganisationType := "organisationType"
  const IsSchool := "isSchool"
  const Code := "code"
  const Name := "name"
  const Filters := "filters"
  const Content := "content"
  const LocationTypeSchool := "school"
  const Status := "status"
  const ErrorType := "errorType"
  const OrgId := "orgId"
  const Persona := "persona"
  const Info := "info"
  const UserInfo := "userInfo"
}
