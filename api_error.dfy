// FromError of internal/api/http/handler/error.go: a service error's
// category decides the status and its specific error the message. The
// service error type is the one handler/error.go imports from
// chronocode-backend/internal/errors; its categories are those of the
// same-shaped internal/domain/errors.go.
module ApiError {

  /** The predefined categories of a service error. */
  datatype Category = BadRequest | InternalFailure | NotFound | Unauthorized

  /** What `errors.As` finds: a service error (its category and the text of
      its specific error) somewhere in the chain, or none. */
  datatype Thrown = ServiceError(category: Category, specificMessage: string) | OtherError

  /** APIError; a status of 0 is Go's zero value, left when no case of the
      switch matched. */
  datatype APIError = APIError(status: int, message: string)

  const UnexpectedMessage: string := "An unexpected error occurred"

  /** FromError. */
  function FromError(err: Thrown): (r: APIError)
    ensures r.status == 400 <==> err.ServiceError? && err.category == BadRequest
    ensures r.status == 500 <==> err.OtherError? || (err.ServiceError? && err.category == InternalFailure)
    ensures r.status == 0 <==> err.ServiceError? && (err.category == NotFound || err.category == Unauthorized)
    ensures err.ServiceError? ==> r.message == err.specificMessage
    ensures err.OtherError? ==> r.message == UnexpectedMessage
  {
    match err
    case ServiceError(category, specific) =>
      var status := match category
        case BadRequest => 400
        case InternalFailure => 500
        case NotFound => 0
        case Unauthorized => 0;
      APIError(status, specific)
    case OtherError => APIError(500, UnexpectedMessage)
  }

  /** Only the two mapped categories and foreign errors get a real status;
      the others are left for the caller to treat as internal. */
  lemma StatusesOfFromError(err: Thrown)
    ensures FromError(err).status in {0, 400, 500}
  {
  }
}
