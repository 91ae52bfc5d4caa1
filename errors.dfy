/**
 * The exceptions the services, guards and user administration raise, one
 * constructor per message template, its parameters filling in the message.
 */
module Errors {
  import opened AuthModels

  datatype Failure =
    /** "Authentication required. Please login first." */
    | AuthenticationRequired
    /** "This action requires one of the following departments: ..." */
    | WrongDepartment(allowed: seq<Department>)
    /** "You don't have permission to <action> <resource>", with the message's own words (e.g. "view", "clients") */
    | NoPermission(action: string, resource: string)
    /** "You can only <action> <resource> ..." of the caller's own clients or contracts */
    | NotOwner(action: string, resource: string)
    /** "You can only update events assigned to you" */
    | NotAssigned
    /** "Only management can assign support contacts" */
    | ManagementOnly
    /** "<Resource> with ID <id> not found" */
    | NotFound(resource: string, id: int)
    /** "Client with email <email> already exists" */
    | EmailExists(email: string)
    /** "Email <email> is already in use" */
    | EmailInUse(email: string)
    /** "Cannot create event for unsigned contract" */
    | UnsignedContract
    /** "Contract is already signed" */
    | AlreadySigned
    /** "Invalid support contact ID" */
    | InvalidSupportContact
    /** "User with this email or employee ID already exists" */
    | DuplicateUser
    /** "User not found" */
    | UserNotFound
  {
    /** Raised as `PermissionError` (as opposed to `ValueError`). */
    predicate IsPermissionError() {
      AuthenticationRequired? || WrongDepartment? || NoPermission? || NotOwner? || NotAssigned? || ManagementOnly?
    }
  }

  /** The value a service returns, or the exception it raises. */
  datatype Result<+T> = Ok(value: T) | Err(failure: Failure)
}
