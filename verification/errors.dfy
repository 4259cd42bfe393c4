/** The errors the services raise, as one closed set of variants, and the
    message classifier of src/utils/prisimErrorHandler.ts. */
module ErrorHandler {
  import opened Common
  import opened Text

  /** `PrismaClientKnownRequestError` (a code such as "P2002" and, for unique
      violations, the offending columns as `meta.target`),
      `PrismaClientInitializationError`, `PrismaClientValidationError`, and any
      other `Error`, which carries its own `name`. */
  datatype AppError =
    | KnownRequest(code: string, target: Option<seq<string>>, message: string)
    | Initialization(message: string)
    | Validation(message: string)
    | Thrown(name: string, message: string)
  {
    function Name(): string {
      match this
      case KnownRequest(_, _, _) => "PrismaClientKnownRequestError"
      case Initialization(_) => "PrismaClientInitializationError"
      case Validation(_) => "PrismaClientValidationError"
      case Thrown(n, _) => n
    }
  }

  /** `throw new Error(message)`. */
  function Fail(message: string): (e: AppError)
    ensures e.Name() == "Error" && e.message == message
  {
    Thrown("Error", message)
  }

  /** The driver errors the services can run into. Their texts are the
      last line of Prisma's messages; the invocation preamble is left out. */
  function UniqueViolation(column: string): (e: AppError)
    ensures e.KnownRequest? && e.code == "P2002" && e.target == Some([column])
  {
    KnownRequest("P2002", Some([column]), "Unique constraint failed on the fields: (`" + column + "`)")
  }

  function RecordNotFound(message: string): (e: AppError)
    ensures e.KnownRequest? && e.code == "P2025"
  {
    KnownRequest("P2025", None, message)
  }

  function ForeignKeyViolation(column: string): (e: AppError)
    ensures e.KnownRequest? && e.code == "P2003"
  {
    KnownRequest("P2003", None, "Foreign key constraint failed on the field: `" + column + "`")
  }

  const UniquePrefix: string := "The following field(s) must be unique: "
  const NotFoundText: string := "The user could not be found"
  const TooLongText: string := "Value too long for a field"
  const ForeignKeyText: string := "Foreign key constraint failed"
  const DatabaseText: string := "Cannot connect to the database. Please check your database server."
  const UploadText: string := "Failed to upload image. Please try again."

  /** The error codes the classifier rewrites. */
  predicate HandledCode(code: string) {
    code in {"P2002", "P2025", "P2000", "P2003"}
  }

  /** `prismaErrorHandler(err)`. */
  function Classify(err: AppError): (r: string)
    ensures err.KnownRequest? && err.code == "P2002" ==>
      StartsWith(r, UniquePrefix) &&
      r[|UniquePrefix|..] == (match err.target case Some(ts) => Join(ts, ", ") case None => "unknown")
    ensures err.KnownRequest? && err.code == "P2025" ==> r == NotFoundText
    ensures err.KnownRequest? && err.code == "P2000" ==> r == TooLongText
    ensures err.KnownRequest? && err.code == "P2003" ==> r == ForeignKeyText
    ensures err.Initialization? ==> r == DatabaseText
    ensures err.Thrown? && err.name == "Error" && Contains(err.message, "Cloudinary") ==> r == UploadText
    ensures (err.KnownRequest? && !HandledCode(err.code)) || err.Validation? ||
            (err.Thrown? && !(err.name == "Error" && Contains(err.message, "Cloudinary")))
            ==> r == err.message
  {
    match err
    case KnownRequest(code, target, message) =>
      if code == "P2002" then
        UniquePrefix + (match target case Some(ts) => Join(ts, ", ") case None => "unknown")
      else if code == "P2025" then NotFoundText
      else if code == "P2000" then TooLongText
      else if code == "P2003" then ForeignKeyText
      // a known-request error is never named "Error", so the Cloudinary rule cannot fire
      else message
    case Initialization(_) => DatabaseText
    case Validation(message) => message
    case Thrown(name, message) =>
      if name == "Error" && Contains(message, "Cloudinary") then UploadText else message
  }

  /** For the recognised driver errors the answer does not depend on the
      driver's own message: no raw driver text reaches the client. */
  lemma ClassifyHidesDriverMessage(a: AppError, b: AppError)
    requires (a.KnownRequest? && b.KnownRequest? && a.code == b.code && a.target == b.target
              && HandledCode(a.code)) || (a.Initialization? && b.Initialization?)
    ensures Classify(a) == Classify(b)
  {
  }

  /** When no rule applies, the error's own message is passed on unchanged. */
  lemma ClassifyPassThrough(err: AppError)
    requires !(err.KnownRequest? && HandledCode(err.code)) && !err.Initialization?
    requires !(err.Name() == "Error" && Contains(err.message, "Cloudinary"))
    ensures Classify(err) == err.message
  {
  }

  /** The Cloudinary rule looks at the name as well as the message: the
      same text under any other name passes through unchanged. */
  lemma CloudinaryRuleNeedsPlainError(message: string, name: string)
    requires Contains(message, "Cloudinary") && name != "Error"
    ensures Classify(Thrown(name, message)) == message
    ensures Classify(Thrown("Error", message)) == UploadText
  {
  }

  /** An empty target list is not "absent": `[].join(", ")` is the empty
      string, which `??` keeps, so the message ends right after the prefix. */
  lemma EmptyTargetIsNotUnknown(message: string)
    ensures Classify(KnownRequest("P2002", Some([]), message)) == UniquePrefix
    ensures Classify(KnownRequest("P2002", None, message)) == UniquePrefix + "unknown"
  {
  }
}
