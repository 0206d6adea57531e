/**
  Shapes shared by the two scripts: the outcome of one call to the
  organizations API, and the policy summaries that `list_policies` returns.
  Every call that the scripts make is an input of the model; a call that
  raises becomes `Err`, carrying the text of the exception as an opaque
  string.
 */
module Organizations {

  /** The outcome of one API call (or of parsing its response). */
  datatype Result<T> = Ok(value: T) | Err(message: string)

  datatype Option<T> = None | Some(value: T)

  /** One entry of `list_policies(...)['Policies']`; the scripts read only `Id` and `Name`. */
  datatype PolicySummary = PolicySummary(id: string, name: string)

  /** The policy type both scripts ask for. */
  const AI_OPT_OUT_POLICY_TYPE: string := "AISERVICES_OPT_OUT_POLICY"
}
