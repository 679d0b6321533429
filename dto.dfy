/**
 * The records the gateway and the user service exchange as JSON: the
 * registration payload and the user record sent back. Every field is a Java
 * `String` (or timestamp) that may be `null`.
 */
module Dto {
  import opened Optional

  /** A point in time; generated by the persistence layer and only copied here. */
  type Timestamp = int

  datatype RegisterRequest = RegisterRequest(
    email: Option<string>,
    keyCloakId: Option<string>,
    password: Option<string>,
    firstName: Option<string>,
    lastName: Option<string>)

  datatype UserResponse = UserResponse(
    id: string,
    keyCloakId: Option<string>,
    password: Option<string>,
    email: Option<string>,
    firstName: Option<string>,
    lastName: Option<string>,
    createdAt: Timestamp,
    updatedAt: Timestamp)
}
