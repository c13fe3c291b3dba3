/** The worked example of the reconciliation design, end to end. */
module Scenario {
  import opened Wrappers
  import opened Text
  import opened Sequences
  import opened Records
  import opened Reconciliation
  import opened Aggregation
  import opened MissingAccounts

  /** The directory's one e-mail is already its own key. */
  lemma DirectoryKeys()
    ensures EmailSet([DirectoryUser(Some("x@y.com"))]) == {"x@y.com"}
  {
    TrimOfTrimmed("x@y.com");
    LowerSpec("x@y.com");
    assert Normalize("x@y.com") == "x@y.com";
    var users := [DirectoryUser(Some("x@y.com"))];
    assert users[..0] == [];
    assert HasEmail(users[0]);
  }

  /** The first roster e-mail matches it; the second does not. */
  lemma RosterKeys()
    ensures Normalize("X@Y.com") == "x@y.com"
    ensures Normalize("z@w.com") != "x@y.com"
  {
    TrimOfTrimmed("X@Y.com");
    LowerSpec("X@Y.com");
    TrimOfTrimmed("z@w.com");
    LowerSpec("z@w.com");
  }

  /** The summary of the one kept row. */
  lemma ScenarioSummary()
    ensures Aggregate([LabelledRecord(RosterRecord("Ada", "ACME", 5, "X@Y.com"), Yes)]) == [AffiliationSummary("ACME", 1, 1, 0)]
  {
    var rec := LabelledRecord(RosterRecord("Ada", "ACME", 5, "X@Y.com"), Yes);
    TrimOfTrimmed("ACME");
    LabelsNormalize();
    assert Observations([rec]) == [Observation("ACME", true)];
    assert [Observation("ACME", true)][..0] == [];
  }

  /** Of the two roster rows only id 5 lies in the first AI-developer cohort. */
  lemma ScenarioKept(roster: seq<RosterRecord>)
    requires roster == [RosterRecord("Ada", "ACME", 5, "X@Y.com"), RosterRecord("Bo", "ACME", 30000, "z@w.com")]
    ensures Filter(roster, RecordInRange(AiDevRanges["cohort1"])) == [roster[0]]
  {
    assert roster[..1] == [roster[0]];
    assert [roster[0]][..0] == [];
  }

  /** The matching roster e-mail is labelled `"Yes"`. */
  lemma ScenarioLabel()
    ensures AccountLabel("X@Y.com", EmailSet([DirectoryUser(Some("x@y.com"))])) == Yes
  {
    DirectoryKeys();
    RosterKeys();
  }

  /**
   * Directory `[x@y.com]`; roster: id 5 with `X@Y.com` and id 30000 with
   * `z@w.com`, both at ACME; cohort 1. Only id 5 is kept, labelled `"Yes"`,
   * and the summary is ACME with one registration, one created, none needed.
   */
  lemma CohortOneScenario()
    ensures var users := [DirectoryUser(Some("x@y.com"))];
            var roster := [RosterRecord("Ada", "ACME", 5, "X@Y.com"), RosterRecord("Bo", "ACME", 30000, "z@w.com")];
            var r := Reconcile(users, roster, roster, "cohort1");
            && r.Success?
            && r.value.0 == [LabelledRecord(roster[0], Yes)]
            && Aggregate(r.value.0) == [AffiliationSummary("ACME", 1, 1, 0)]
  {
    var users := [DirectoryUser(Some("x@y.com"))];
    var roster := [RosterRecord("Ada", "ACME", 5, "X@Y.com"), RosterRecord("Bo", "ACME", 30000, "z@w.com")];
    var kept := ReconcileRoster(EmailSet(users), roster, AiDevRanges["cohort1"]);
    ScenarioKept(roster);
    assert RecordsOf(kept) == [roster[0]];
    assert |kept| == 1 && kept[0].record == roster[0];
    ScenarioLabel();
    assert kept == [LabelledRecord(roster[0], Yes)];
    ScenarioSummary();
  }
}
