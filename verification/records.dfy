/** The records that flow through the reconciliation pipeline. */
module Records {
  import opened Wrappers

  /** A user of the GitLab directory; the API may omit `email` or send it empty. */
  datatype DirectoryUser = DirectoryUser(email: Option<string>)

  /**
   * One roster row as the tabular API returns it, restricted to the projected
   * fields `Full Name`, `Affiliation (College/Company/Organization Name)`,
   * `Id` and `Email Address`.
   */
  datatype RosterRecord = RosterRecord(fullName: string, affiliation: string, id: int, email: string)

  /** A roster row with the added `has_gitlab_account` column. */
  datatype LabelledRecord = LabelledRecord(record: RosterRecord, hasGitlabAccount: string)

  /** The two values the reconciler writes into `has_gitlab_account`. */
  const Yes: string := "Yes"
  const No: string := "No"

  /** Column names whose absence pandas reports as a `KeyError`. */
  const EmailColumn: string := "Email Address"
  const AccountColumn: string := "has_gitlab_account"

  /** What the pipeline raises. */
  datatype PipelineError =
    | MissingColumn(column: string)   // pandas `KeyError` on a table built from an empty list
    | InvalidCohort(cohort: string)   // `ValueError("Invalid cohort_type.")`
}
