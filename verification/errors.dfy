/** The error values the services return (pkg/error/service_error.go): a
    ServiceError pairs a type tag with a message. */
module Errors {

  /** The `Type` strings the services use. */
  datatype ErrorType =
    | ValueDoesntExist        // "value_doesnt_exist"
    | ValueExist              // "value_exist"
    | DatabaseError           // "database_error"
    | UserFollowerError       // "user_follower_error"
    | AuthenticationError     // "authentication_error"
    | UploadFileError         // "upload_file_error"
    | EncryptedPasswordError  // "encrypted_password_error"
    | BcryptError             // "bcrypt_error"
    | JsonWebTokenError       // "jsonwebtoken_error"
    | InvalidValueError       // "invalid_value_error"

  /** The `Errors` payload: a fixed text, or one of the two formatted
      messages "account with id %d not found" and
      "account with username %s not found". */
  datatype Message =
    | Text(text: string)
    | AccountIdNotFound(id: nat)
    | AccountUsernameNotFound(username: string)

  datatype ServiceError = ServiceError(kind: ErrorType, message: Message)

  /** What a service method returning only `error` gives back. */
  datatype Outcome = Ok | Fail(error: ServiceError)

  /** What a service method returning `(T, error)` gives back. */
  datatype Result<T> = Success(value: T) | Failure(error: ServiceError)

  /** GORM's ErrRecordNotFound, whose text the post service passes on. */
  const RecordNotFound: Message := Text("record not found")
}
