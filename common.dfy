/** Optional values, used for nullable columns and absent request fields. */
module Wrappers {
  datatype Option<+T> = None | Some(value: T)
}

/** The controllers' error responses and their HTTP status codes. */
module Http {
  /** `Invalid` is a failed `$request->validate(...)` and lists the fields that
      failed; `InvalidCredentials` is the login failure reported on `email`. */
  datatype Error =
    | Invalid(fields: set<string>)
    | InvalidCredentials
    | Forbidden
    | NotFound
    | Conflict

  function Code(e: Error): (code: nat)
    ensures code in {403, 404, 409, 422}
    ensures code == 422 <==> e.Invalid? || e.InvalidCredentials?
    ensures code == 403 <==> e.Forbidden?
    ensures code == 404 <==> e.NotFound?
    ensures code == 409 <==> e.Conflict?
  {
    match e
    case Invalid(_) => 422
    case InvalidCredentials => 422
    case Forbidden => 403
    case NotFound => 404
    case Conflict => 409
  }

  datatype Result<T> = Ok(value: T) | Err(error: Error)
}

/** The few Laravel validation rules the controllers use, on string inputs. */
module Validation {
  import opened Wrappers

  /** The characters PHP's `trim` removes. */
  predicate Trimmable(c: char) {
    c == ' ' || c == '\t' || c == '\n' || c == '\r' || c as int == 0 || c as int == 11
  }

  predicate Blank(s: string) {
    forall i :: 0 <= i < |s| ==> Trimmable(s[i])
  }

  /** `required`: the field is present and not empty once trimmed. */
  predicate Required(v: Option<string>) {
    v.Some? && !Blank(v.value)
  }

  /** `required|string|max:n` (the length counts characters). */
  predicate RequiredAtMost(v: Option<string>, n: nat) {
    Required(v) && |v.value| <= n
  }

  /** `email`, approximated as a non-empty local part and domain around an `@`. */
  predicate WellFormedEmail(s: string) {
    exists i :: 0 < i < |s| - 1 && s[i] == '@'
  }
}
