/**
 * `filter_no_gitlab_accounts`: the rows whose account status, stripped and
 * lower-cased, is `"no"`, and how their number relates to the summary.
 */
module MissingAccounts {
  import opened Wrappers
  import opened Text
  import opened Sequences
  import opened Records
  import opened Reconciliation
  import opened Aggregation

  /** `df['has_gitlab_account'].str.strip().str.lower() == 'no'` */
  predicate IsMissing(row: LabelledRecord)
  {
    Normalize(row.hasGitlabAccount) == "no"
  }

  function Missing(): LabelledRecord -> bool
  {
    (row: LabelledRecord) => IsMissing(row)
  }

  /**
   * `filter_no_gitlab_accounts(data_updated)`. A table built from an empty
   * list has no `has_gitlab_account` column, so the lookup raises; otherwise
   * the result is the order-preserving selection of the missing rows.
   */
  function FilterNoAccounts(rows: seq<LabelledRecord>): (r: Result<seq<LabelledRecord>, PipelineError>)
    ensures r.Failure? <==> |rows| == 0
    ensures r.Failure? ==> r.error == MissingColumn(AccountColumn)
    ensures r.Success? ==>
              && IsSubsequence(r.value, rows)
              && (forall k :: 0 <= k < |r.value| ==> Normalize(r.value[k].hasGitlabAccount) == "no")
              && (forall i :: 0 <= i < |rows| && IsMissing(rows[i]) ==> rows[i] in r.value)
              && |r.value| == Count(rows, Missing())
  {
    if |rows| == 0 then Failure(MissingColumn(AccountColumn))
    else Success(Filter(rows, Missing()))
  }

  /** The two labels the reconciler writes normalise to `"yes"` and `"no"`. */
  lemma LabelsNormalize()
    ensures Normalize(Yes) == "yes" && Normalize(No) == "no"
  {
    TrimOfTrimmed(Yes);
    TrimOfTrimmed(No);
  }

  /**
   * When every label is `"Yes"` or `"No"`, each row is either created or
   * missing, never both: the missing rows are all the rows that are not created.
   */
  lemma {:induction false} MissingComplementsCreated(rows: seq<LabelledRecord>)
    requires forall k :: 0 <= k < |rows| ==> rows[k].hasGitlabAccount in {Yes, No}
    ensures Count(rows, Missing()) + Count(Observations(rows), Created()) == |rows|
  {
    if |rows| > 0 {
      var init := rows[..|rows| - 1];
      var row := rows[|rows| - 1];
      MissingComplementsCreated(init);
      LabelsNormalize();
      assert Observations(rows)[..|rows| - 1] == Observations(init);
      assert Observations(rows)[|rows| - 1].created == IsCreated(row);
      assert IsCreated(row) != IsMissing(row);
    }
  }

  /**
   * Whatever the labels, a missing row is never a created row, so the
   * missing rows are at most the `no_of_accounts_needed` of the summary.
   */
  lemma {:induction false} MissingAtMostNeeded(rows: seq<LabelledRecord>)
    ensures Count(rows, Missing()) <= SumNeeded(Aggregate(rows))
  {
    MissingNotCreated(rows);
    TallyInvariants(Observations(rows));
  }

  lemma {:induction false} MissingNotCreated(rows: seq<LabelledRecord>)
    ensures Count(rows, Missing()) + Count(Observations(rows), Created()) <= |rows|
  {
    if |rows| > 0 {
      var init := rows[..|rows| - 1];
      MissingNotCreated(init);
      assert Observations(rows)[..|rows| - 1] == Observations(init);
    }
  }

  /**
   * For the output of the reconciler the dashboard's figures agree: the
   * missing-account list has as many rows as the summary's
   * `no_of_accounts_needed` add up to, and as many as the roster has rows
   * minus the summary's `no_of_accounts_created`.
   */
  lemma MissingMatchesSummary(rows: seq<LabelledRecord>)
    requires |rows| > 0
    requires forall k :: 0 <= k < |rows| ==> rows[k].hasGitlabAccount in {Yes, No}
    ensures FilterNoAccounts(rows).Success?
    ensures |FilterNoAccounts(rows).value| == SumNeeded(Aggregate(rows))
    ensures |FilterNoAccounts(rows).value| == |rows| - SumCreated(Aggregate(rows))
  {
    MissingComplementsCreated(rows);
    TallyInvariants(Observations(rows));
  }

  /**
   * End to end: for a successful reconciliation, each non-empty cohort
   * roster's missing-account list agrees with that roster's summary.
   */
  lemma ReconciledMissingMatchesSummary(users: seq<DirectoryUser>, aidev: seq<RosterRecord>, techlead: seq<RosterRecord>, cohort: string)
    requires |aidev| > 0 && |techlead| > 0 && cohort in {"cohort1", "cohort2"}
    ensures var r := Reconcile(users, aidev, techlead, cohort).value;
            var summary := AggregateCollegewise(r.0, r.1);
            && (|r.0| > 0 ==> |FilterNoAccounts(r.0).value| == SumNeeded(summary.0) == |r.0| - SumCreated(summary.0))
            && (|r.1| > 0 ==> |FilterNoAccounts(r.1).value| == SumNeeded(summary.1) == |r.1| - SumCreated(summary.1))
  {
    var r := Reconcile(users, aidev, techlead, cohort).value;
    ReconciledLabels(users, aidev, techlead, cohort);
    if |r.0| > 0 {
      MissingMatchesSummary(r.0);
    }
    if |r.1| > 0 {
      MissingMatchesSummary(r.1);
    }
  }
}
