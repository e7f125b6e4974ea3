/** The error codes the relay server puts in `{"ok": false, "error": <code>}`. */
module Failures {

  datatype Failure =
    | MissingFields
    | PwTooShort
    | UserExists
    | NoSuchUser
    | LockedOut
    | BadCredentials(strike: nat)   // also carries `"strike": n`
    | LockedAfter3(strike: nat)     // also carries `"strike": 3`
    | NotLoggedIn
    | MissingPeer
    | EmptyQuery
    | UnknownAction
  {
    /** The string sent on the wire. */
    function Code(): string
    {
      match this
      case MissingFields => "missing_fields"
      case PwTooShort => "pw_too_short"
      case UserExists => "user_exists"
      case NoSuchUser => "no_such_user"
      case LockedOut => "locked_out"
      case BadCredentials(_) => "bad_credentials"
      case LockedAfter3(_) => "locked_after_3"
      case NotLoggedIn => "not_logged_in"
      case MissingPeer => "missing_peer"
      case EmptyQuery => "empty_query"
      case UnknownAction => "unknown_action"
    }
  }

  /** A client that reads the error string learns which failure it was; only the
      strike number travels in a field of its own. */
  lemma CodeIdentifiesFailure(a: Failure, b: Failure)
    ensures a.Code() == b.Code() <==>
              a == b || (a.BadCredentials? && b.BadCredentials?) || (a.LockedAfter3? && b.LockedAfter3?)
  {
  }
}
