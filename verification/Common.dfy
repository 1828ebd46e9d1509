// The result shapes every module shares, and who acts in a case.
module Common {

  datatype Option<+T> = None | Some(value: T)

  /** A refusal carries no text here: which branch refused is what matters. */
  datatype Outcome<+T> = Ok(value: T) | Refused

  /** The role an examiner acts under, as far as a role decides anything in a case. */
  datatype Role = CaseOwner | Administrator | Reviewer | OtherRole(word: string)

  /** Who is writing, by name and asserted role. */
  datatype Actor = Actor(name: string, role: Role)
}
