/**
 * `update_users_with_gitlabinfo`: label every roster row with whether its
 * e-mail has a directory account, then keep the rows of the chosen cohort.
 */
module Reconciliation {
  import opened Wrappers
  import opened Text
  import opened Sequences
  import opened Records

  /** Python truthiness of `user.get('email')`: present, not null, not the empty string. */
  predicate HasEmail(u: DirectoryUser)
  {
    u.email.Some? && u.email.value != ""
  }

  /**
   * The set `{user['email'].strip().lower() for user in gitlab_users if user.get('email')}`.
   * The emptiness test comes before stripping, so a blank but non-empty
   * e-mail contributes the empty key.
   */
  function EmailSet(users: seq<DirectoryUser>): (emails: set<string>)
    ensures forall i :: 0 <= i < |users| && HasEmail(users[i]) ==> Normalize(users[i].email.value) in emails
    ensures forall e :: e in emails ==>
              exists i :: 0 <= i < |users| && HasEmail(users[i]) && Normalize(users[i].email.value) == e
  {
    if |users| == 0 then {}
    else
      var init, u := users[..|users| - 1], users[|users| - 1];
      var rest := EmailSet(init);
      assert forall i :: 0 <= i < |init| ==> init[i] == users[i];
      rest + (if HasEmail(u) then {Normalize(u.email.value)} else {})
  }

  /** `"Yes"` when the normalised e-mail is a directory key, `"No"` otherwise. */
  function AccountLabel(email: string, emails: set<string>): string
  {
    if Normalize(email) in emails then Yes else No
  }

  /** The roster with the `has_gitlab_account` column added, row for row. */
  function LabelRoster(roster: seq<RosterRecord>, emails: set<string>): (r: seq<LabelledRecord>)
    ensures |r| == |roster|
    ensures forall i :: 0 <= i < |roster| ==> r[i].record == roster[i]
    ensures forall i :: 0 <= i < |roster| ==> r[i].hasGitlabAccount == AccountLabel(roster[i].email, emails)
  {
    if |roster| == 0 then []
    else
      var init, rec := roster[..|roster| - 1], roster[|roster| - 1];
      var rest := LabelRoster(init, emails);
      assert forall i :: 0 <= i < |init| ==> init[i] == roster[i];
      rest + [LabelledRecord(rec, AccountLabel(rec.email, emails))]
  }

  /**
   * A roster row is labelled `"Yes"` exactly when some directory user with a
   * non-empty e-mail has the same e-mail up to surrounding white space and
   * letter case; otherwise it is labelled `"No"`.
   */
  lemma LabelMatchesDirectory(users: seq<DirectoryUser>, rec: RosterRecord)
    ensures AccountLabel(rec.email, EmailSet(users)) == Yes <==>
              exists i :: 0 <= i < |users| && HasEmail(users[i]) && Normalize(users[i].email.value) == Normalize(rec.email)
    ensures AccountLabel(rec.email, EmailSet(users)) in {Yes, No}
  {
    var emails := EmailSet(users);
    if AccountLabel(rec.email, emails) != Yes {
      assert Normalize(rec.email) !in emails;
    }
  }

  /** A closed interval of roster ids, `start <= Id <= end`. */
  datatype IdRange = IdRange(start: int, end: int)
  {
    predicate Contains(id: int)
    {
      start <= id <= end
    }
  }

  /** `aidev_ranges` */
  const AiDevRanges: map<string, IdRange> :=
    map["cohort1" := IdRange(0, 25000), "cohort2" := IdRange(25001, 44126)]

  /** `techlead_ranges` */
  const TechLeadRanges: map<string, IdRange> :=
    map["cohort1" := IdRange(0, 1730), "cohort2" := IdRange(1731, 2348)]

  /** The two cohorts of one table are non-empty, ordered and share no id. */
  predicate CohortsSeparated(table: map<string, IdRange>)
    requires "cohort1" in table && "cohort2" in table
  {
    var c1, c2 := table["cohort1"], table["cohort2"];
    c1.start <= c1.end < c2.start <= c2.end
  }

  /** Both tables know the same two cohorts, and within each the ranges are separated. */
  lemma RangeTables()
    ensures AiDevRanges.Keys == TechLeadRanges.Keys == {"cohort1", "cohort2"}
    ensures CohortsSeparated(AiDevRanges) && CohortsSeparated(TechLeadRanges)
  {
  }

  /** No id lies in both cohorts of a separated table. */
  lemma NoIdInBothCohorts(table: map<string, IdRange>, id: int)
    requires "cohort1" in table && "cohort2" in table
    requires CohortsSeparated(table)
    ensures !(table["cohort1"].Contains(id) && table["cohort2"].Contains(id))
  {
  }

  /** The selection predicate `(df['Id'] >= start) & (df['Id'] <= end)`. */
  function InRange(range: IdRange): LabelledRecord -> bool
  {
    (row: LabelledRecord) => range.Contains(row.record.id)
  }

  /** The same selection on unlabelled roster rows. */
  function RecordInRange(range: IdRange): RosterRecord -> bool
  {
    (rec: RosterRecord) => range.Contains(rec.id)
  }

  /** The roster row underneath a labelled row. */
  function RecordOf(row: LabelledRecord): RosterRecord
  {
    row.record
  }

  /** The roster rows underneath labelled rows. */
  function RecordsOf(rows: seq<LabelledRecord>): seq<RosterRecord>
  {
    Map(rows, RecordOf)
  }

  /**
   * One roster through the reconciler: its rows are exactly the in-range
   * rows of the input, in input order and unchanged, each carrying its label.
   */
  function ReconcileRoster(emails: set<string>, roster: seq<RosterRecord>, range: IdRange): (r: seq<LabelledRecord>)
    ensures RecordsOf(r) == Filter(roster, RecordInRange(range))
    ensures forall k :: 0 <= k < |r| ==> r[k].hasGitlabAccount == AccountLabel(r[k].record.email, emails)
    ensures forall k :: 0 <= k < |r| ==> range.Contains(r[k].record.id)
  {
    var r := Filter(LabelRoster(roster, emails), InRange(range));
    LabelThenFilter(emails, roster, range);
    r
  }

  /** Filtering labelled rows selects the same records as filtering the roster itself. */
  lemma LabelThenFilter(emails: set<string>, roster: seq<RosterRecord>, range: IdRange)
    ensures RecordsOf(Filter(LabelRoster(roster, emails), InRange(range))) == Filter(roster, RecordInRange(range))
    ensures forall k :: 0 <= k < |Filter(LabelRoster(roster, emails), InRange(range))| ==>
              var row := Filter(LabelRoster(roster, emails), InRange(range))[k];
              row.hasGitlabAccount == AccountLabel(row.record.email, emails)
  {
    var labelled := LabelRoster(roster, emails);
    MapFilter(labelled, RecordOf, InRange(range), RecordInRange(range));
    assert RecordsOf(labelled) == roster;
  }

  /**
   * `update_users_with_gitlabinfo(gitlab_users, aidev_data, techlead_data, cohort_type)`.
   * An empty roster builds a table without columns, so reading its
   * `Email Address` column raises before the cohort is even looked at.
   */
  function Reconcile(users: seq<DirectoryUser>, aidev: seq<RosterRecord>, techlead: seq<RosterRecord>, cohort: string)
    : (r: Result<(seq<LabelledRecord>, seq<LabelledRecord>), PipelineError>)
    ensures r.Failure? <==> (|aidev| == 0 || |techlead| == 0 || cohort !in {"cohort1", "cohort2"})
    ensures r.Failure? && r.error.InvalidCohort? <==> (|aidev| > 0 && |techlead| > 0 && cohort !in {"cohort1", "cohort2"})
    ensures r.Failure? && r.error.MissingColumn? ==> r.error.column == EmailColumn
    ensures r.Success? ==>
              && r.value.0 == ReconcileRoster(EmailSet(users), aidev, AiDevRanges[cohort])
              && r.value.1 == ReconcileRoster(EmailSet(users), techlead, TechLeadRanges[cohort])
  {
    var emails := EmailSet(users);
    if |aidev| == 0 || |techlead| == 0 then Failure(MissingColumn(EmailColumn))
    else if cohort !in AiDevRanges || cohort !in TechLeadRanges then Failure(InvalidCohort(cohort))
    else
      Success((ReconcileRoster(emails, aidev, AiDevRanges[cohort]),
               ReconcileRoster(emails, techlead, TechLeadRanges[cohort])))
  }

  /** Every label the reconciler writes is `"Yes"` or `"No"`. */
  lemma ReconciledLabels(users: seq<DirectoryUser>, aidev: seq<RosterRecord>, techlead: seq<RosterRecord>, cohort: string)
    requires |aidev| > 0 && |techlead| > 0 && cohort in {"cohort1", "cohort2"}
    ensures var r := Reconcile(users, aidev, techlead, cohort).value;
            && (forall k :: 0 <= k < |r.0| ==> r.0[k].hasGitlabAccount in {Yes, No})
            && (forall k :: 0 <= k < |r.1| ==> r.1[k].hasGitlabAccount in {Yes, No})
  {
  }

  /**
   * The two cohorts never share a row: no id reconciled into cohort 1 of a
   * roster also appears in cohort 2 of that roster.
   */
  lemma CohortsShareNoRecord(users: seq<DirectoryUser>, aidev: seq<RosterRecord>, techlead: seq<RosterRecord>)
    requires |aidev| > 0 && |techlead| > 0
    ensures var r1, r2 := Reconcile(users, aidev, techlead, "cohort1"), Reconcile(users, aidev, techlead, "cohort2");
            && r1.Success? && r2.Success?
            && (forall i, j :: 0 <= i < |r1.value.0| && 0 <= j < |r2.value.0| ==> r1.value.0[i].record.id != r2.value.0[j].record.id)
            && (forall i, j :: 0 <= i < |r1.value.1| && 0 <= j < |r2.value.1| ==> r1.value.1[i].record.id != r2.value.1[j].record.id)
  {
    RangeTables();
  }

  /** A row whose id lies outside every range of its roster is in no cohort's output. */
  lemma OutOfRangeExcluded(users: seq<DirectoryUser>, aidev: seq<RosterRecord>, techlead: seq<RosterRecord>, cohort: string)
    requires |aidev| > 0 && |techlead| > 0 && cohort in {"cohort1", "cohort2"}
    ensures var r := Reconcile(users, aidev, techlead, cohort).value;
            && (forall k :: 0 <= k < |r.0| ==> 0 <= r.0[k].record.id <= 44126)
            && (forall k :: 0 <= k < |r.1| ==> 0 <= r.1[k].record.id <= 2348)
  {
  }

  /**
   * The emptiness test on a directory e-mail happens before stripping, so a
   * directory user whose e-mail is a single space puts the empty key in the
   * set, and every roster row with a blank e-mail is then labelled `"Yes"`.
   */
  lemma BlankEmailMatchesBlank(rec: RosterRecord)
    requires AllSpace(rec.email)
    ensures AccountLabel(rec.email, EmailSet([DirectoryUser(Some(" "))])) == Yes
  {
    NormalizeIgnoresPadding("", rec.email, "");
    assert rec.email + "" + "" == rec.email;
    NormalizeIgnoresPadding("", " ", "");
    assert " " + "" + "" == " ";
    var users := [DirectoryUser(Some(" "))];
    assert HasEmail(users[0]);
  }
}
