/**
 * `aggregate_collegewise_gitlab`: per trimmed affiliation, in first-seen
 * order, the number of registrations and how many of them have or still
 * need a GitLab account. The source repeats the same loop for both rosters;
 * here it is one function applied to each.
 */
module Aggregation {
  import opened Text
  import opened Sequences
  import opened Records
  import opened Wrappers

  /** One entry of the summary list. */
  datatype AffiliationSummary = AffiliationSummary(
    affiliation: string,
    totalRegistrations: nat,
    accountsCreated: nat,
    accountsNeeded: nat)

  /** The grouping key: the affiliation with surrounding white space removed, case kept. */
  function AffiliationKey(row: LabelledRecord): string
  {
    Trim(row.record.affiliation)
  }

  /** A row counts as created when its normalised status is `"yes"`; anything else is needed. */
  predicate IsCreated(row: LabelledRecord)
  {
    Normalize(row.hasGitlabAccount) == "yes"
  }

  /** What one iteration of the loop reads from its row. */
  datatype Observation = Observation(key: string, created: bool)

  function Observe(row: LabelledRecord): Observation
  {
    Observation(AffiliationKey(row), IsCreated(row))
  }

  /** The observations of all rows, in row order. */
  function Observations(rows: seq<LabelledRecord>): (r: seq<Observation>)
    ensures |r| == |rows|
    ensures forall i :: 0 <= i < |rows| ==> r[i] == Observe(rows[i])
  {
    seq(|rows|, i requires 0 <= i < |rows| => Observe(rows[i]))
  }

  /** The counters of one group after one more row. */
  function Bump(e: AffiliationSummary, created: bool): AffiliationSummary
  {
    AffiliationSummary(
      e.affiliation,
      e.totalRegistrations + 1,
      e.accountsCreated + (if created then 1 else 0),
      e.accountsNeeded + (if created then 0 else 1))
  }

  /** A fresh group holding one row, as `defaultdict` creates it on first access. */
  function Fresh(key: string, created: bool): AffiliationSummary
  {
    Bump(AffiliationSummary(key, 0, 0, 0), created)
  }

  /** One iteration of the loop: bump the group of `key`, appending it if it is new. */
  function Add(s: seq<AffiliationSummary>, key: string, created: bool): seq<AffiliationSummary>
  {
    if |s| == 0 then [Fresh(key, created)]
    else if s[0].affiliation == key then [Bump(s[0], created)] + s[1..]
    else [s[0]] + Add(s[1..], key, created)
  }

  /** The summary after the loop has seen `obs`. */
  function Tally(obs: seq<Observation>): seq<AffiliationSummary>
  {
    if |obs| == 0 then []
    else
      var o := obs[|obs| - 1];
      Add(Tally(obs[..|obs| - 1]), o.key, o.created)
  }

  /** The summary of one roster. */
  function Aggregate(rows: seq<LabelledRecord>): seq<AffiliationSummary>
  {
    Tally(Observations(rows))
  }

  /**
   * `aggregate_collegewise_gitlab(aidev_updated, techlead_updated)`: each
   * summary is balanced, lists every trimmed affiliation of its roster once in
   * first-seen order, and its totals add up to the number of rows.
   */
  function AggregateCollegewise(aidev: seq<LabelledRecord>, techlead: seq<LabelledRecord>)
    : (r: (seq<AffiliationSummary>, seq<AffiliationSummary>))
    ensures Balanced(r.0) && Balanced(r.1)
    ensures DistinctKeys(r.0) && DistinctKeys(r.1)
    ensures Keys(r.0) == FirstSeen(KeysOf(Observations(aidev)))
    ensures Keys(r.1) == FirstSeen(KeysOf(Observations(techlead)))
    ensures SumTotal(r.0) == |aidev| && SumTotal(r.1) == |techlead|
  {
    TallyInvariants(Observations(aidev));
    TallyInvariants(Observations(techlead));
    TallyKeys(Observations(aidev));
    TallyKeys(Observations(techlead));
    (Aggregate(aidev), Aggregate(techlead))
  }

  // ---------------------------------------------------------------------
  // Reference definitions the summary is measured against

  /** Every entry satisfies `total_registrations == no_of_accounts_created + no_of_accounts_needed`. */
  predicate Balanced(s: seq<AffiliationSummary>)
  {
    forall i :: 0 <= i < |s| ==> s[i].totalRegistrations == s[i].accountsCreated + s[i].accountsNeeded
  }

  /** No affiliation is listed twice. */
  predicate DistinctKeys(s: seq<AffiliationSummary>)
  {
    forall i, j :: 0 <= i < j < |s| ==> s[i].affiliation != s[j].affiliation
  }

  /** The affiliations of the summary, in order. */
  function Keys(s: seq<AffiliationSummary>): (r: seq<string>)
    ensures |r| == |s|
    ensures forall i :: 0 <= i < |s| ==> r[i] == s[i].affiliation
  {
    if |s| == 0 then [] else [s[0].affiliation] + Keys(s[1..])
  }

  /** The first entry for `key`, if any. */
  function Lookup(s: seq<AffiliationSummary>, key: string): Option<AffiliationSummary>
  {
    if |s| == 0 then None
    else if s[0].affiliation == key then Some(s[0])
    else Lookup(s[1..], key)
  }

  /** The keys of the observations, in row order. */
  function KeysOf(obs: seq<Observation>): (r: seq<string>)
    ensures |r| == |obs|
    ensures forall i :: 0 <= i < |obs| ==> r[i] == obs[i].key
  {
    if |obs| == 0 then []
    else
      var init := obs[..|obs| - 1];
      var rest := KeysOf(init);
      assert forall i :: 0 <= i < |init| ==> init[i] == obs[i];
      rest + [obs[|obs| - 1].key]
  }

  /** The distinct elements of `xs`, each where it first occurs. */
  function FirstSeen(xs: seq<string>): seq<string>
  {
    if |xs| == 0 then []
    else
      var init, x := xs[..|xs| - 1], xs[|xs| - 1];
      if x in init then FirstSeen(init) else FirstSeen(init) + [x]
  }

  /** Rows of affiliation `key`. */
  function WithKey(key: string): Observation -> bool
  {
    (o: Observation) => o.key == key
  }

  /** Created rows of affiliation `key`. */
  function CreatedWithKey(key: string): Observation -> bool
  {
    (o: Observation) => o.key == key && o.created
  }

  /** Rows of affiliation `key` that still need an account. */
  function NeededWithKey(key: string): Observation -> bool
  {
    (o: Observation) => o.key == key && !o.created
  }

  /** Created rows, whatever their affiliation. */
  function Created(): Observation -> bool
  {
    (o: Observation) => o.created
  }

  /** The sum of `total_registrations` over a summary. */
  function SumTotal(s: seq<AffiliationSummary>): nat
  {
    if |s| == 0 then 0 else s[0].totalRegistrations + SumTotal(s[1..])
  }

  /** The sum of `no_of_accounts_created` over a summary. */
  function SumCreated(s: seq<AffiliationSummary>): nat
  {
    if |s| == 0 then 0 else s[0].accountsCreated + SumCreated(s[1..])
  }

  /** The sum of `no_of_accounts_needed` over a summary. */
  function SumNeeded(s: seq<AffiliationSummary>): nat
  {
    if |s| == 0 then 0 else s[0].accountsNeeded + SumNeeded(s[1..])
  }

  // ---------------------------------------------------------------------
  // One step of the loop

  /** Adding a row bumps the group of its key and leaves every other group alone. */
  lemma {:induction false} AddLookup(s: seq<AffiliationSummary>, key: string, created: bool, k: string)
    ensures Lookup(Add(s, key, created), k) ==
              if k != key then Lookup(s, k)
              else if Lookup(s, key).Some? then Some(Bump(Lookup(s, key).value, created))
              else Some(Fresh(key, created))
  {
    if |s| > 0 && s[0].affiliation != key {
      AddLookup(s[1..], key, created, k);
    }
  }

  /** Adding a row keeps the existing order and appends a key only when it is new. */
  lemma {:induction false} AddKeys(s: seq<AffiliationSummary>, key: string, created: bool)
    ensures Keys(Add(s, key, created)) == if key in Keys(s) then Keys(s) else Keys(s) + [key]
  {
    if |s| > 0 && s[0].affiliation != key {
      AddKeys(s[1..], key, created);
      assert Keys(s) == [s[0].affiliation] + Keys(s[1..]);
    }
  }

  /** Adding a row preserves balance and distinct keys, and adds one to the totals. */
  lemma {:induction false} AddInvariants(s: seq<AffiliationSummary>, key: string, created: bool)
    requires Balanced(s) && DistinctKeys(s)
    ensures Balanced(Add(s, key, created)) && DistinctKeys(Add(s, key, created))
    ensures SumTotal(Add(s, key, created)) == SumTotal(s) + 1
    ensures SumCreated(Add(s, key, created)) == SumCreated(s) + (if created then 1 else 0)
    ensures SumNeeded(Add(s, key, created)) == SumNeeded(s) + (if created then 0 else 1)
  {
    if |s| > 0 && s[0].affiliation != key {
      AddInvariants(s[1..], key, created);
      AddKeys(s[1..], key, created);
      var t := Add(s[1..], key, created);
      forall j | 0 <= j < |t|
        ensures t[j].affiliation != s[0].affiliation
      {
        assert Keys(t)[j] == t[j].affiliation;
        if j < |s| - 1 {
          assert Keys(s[1..])[j] == s[j + 1].affiliation;
        }
      }
    }
  }

  // ---------------------------------------------------------------------
  // The whole loop

  /**
   * Every entry of the summary is balanced, no affiliation is listed twice,
   * the totals add up to the number of rows, and the created and needed
   * counters add up to the created rows and all other rows.
   */
  lemma {:induction false} TallyInvariants(obs: seq<Observation>)
    ensures Balanced(Tally(obs)) && DistinctKeys(Tally(obs))
    ensures SumTotal(Tally(obs)) == |obs|
    ensures SumCreated(Tally(obs)) == Count(obs, Created())
    ensures SumNeeded(Tally(obs)) == |obs| - Count(obs, Created())
  {
    if |obs| > 0 {
      var init, o := obs[..|obs| - 1], obs[|obs| - 1];
      TallyInvariants(init);
      AddInvariants(Tally(init), o.key, o.created);
    }
  }

  /**
   * The entry for an affiliation counts exactly the rows with that key, of
   * them the created ones and the others; a key no row carries has no entry.
   */
  lemma {:induction false} TallyCounts(obs: seq<Observation>, key: string)
    ensures Lookup(Tally(obs), key) ==
              if Count(obs, WithKey(key)) == 0 then None
              else Some(AffiliationSummary(key, Count(obs, WithKey(key)),
                                           Count(obs, CreatedWithKey(key)), Count(obs, NeededWithKey(key))))
  {
    if |obs| > 0 {
      var init, o := obs[..|obs| - 1], obs[|obs| - 1];
      TallyCounts(init, key);
      AddLookup(Tally(init), o.key, o.created, key);
      if o.key == key && Count(init, WithKey(key)) == 0 {
        CountsSplit(init, key);
      }
    }
  }

  /** Among the rows of one affiliation, every row is created or needed. */
  lemma {:induction false} CountsSplit(obs: seq<Observation>, key: string)
    ensures Count(obs, WithKey(key)) == Count(obs, CreatedWithKey(key)) + Count(obs, NeededWithKey(key))
  {
    if |obs| > 0 {
      CountsSplit(obs[..|obs| - 1], key);
    }
  }

  /** The summary lists the keys in the order they are first seen. */
  lemma {:induction false} TallyKeys(obs: seq<Observation>)
    ensures Keys(Tally(obs)) == FirstSeen(KeysOf(obs))
  {
    if |obs| > 0 {
      var init, o := obs[..|obs| - 1], obs[|obs| - 1];
      TallyKeys(init);
      AddKeys(Tally(init), o.key, o.created);
      FirstSeenMembers(KeysOf(init));
      assert KeysOf(obs)[..|obs| - 1] == KeysOf(init);
    }
  }

  /**
   * Row-level reading of the summary: an affiliation has an entry exactly when
   * some row carries it after trimming, and then the entry is that
   * affiliation's number of rows, of created rows and of other rows. Its
   * entry is unique, so the counters can be read at any position.
   */
  lemma AggregateCounts(rows: seq<LabelledRecord>, i: nat)
    requires i < |Aggregate(rows)|
    ensures var e, obs := Aggregate(rows)[i], Observations(rows);
            && e.totalRegistrations == Count(obs, WithKey(e.affiliation)) > 0
            && e.accountsCreated == Count(obs, CreatedWithKey(e.affiliation))
            && e.accountsNeeded == Count(obs, NeededWithKey(e.affiliation))
  {
    var s, obs := Aggregate(rows), Observations(rows);
    TallyInvariants(obs);
    TallyCounts(obs, s[i].affiliation);
    LookupDistinct(s, i);
  }

  /** In a summary without repeated keys, looking up an entry's key finds that entry. */
  lemma {:induction false} LookupDistinct(s: seq<AffiliationSummary>, i: nat)
    requires DistinctKeys(s) && i < |s|
    ensures Lookup(s, s[i].affiliation) == Some(s[i])
  {
    if i > 0 {
      LookupDistinct(s[1..], i - 1);
    }
  }

  /** `FirstSeen` keeps exactly the elements of its input. */
  lemma {:induction false} FirstSeenMembers(xs: seq<string>)
    ensures forall x :: x in FirstSeen(xs) <==> x in xs
  {
    if |xs| > 0 {
      var init := xs[..|xs| - 1];
      FirstSeenMembers(init);
      assert xs == init + [xs[|xs| - 1]];
    }
  }

  /** No element occurs twice. */
  predicate AllDistinct(d: seq<string>)
  {
    forall i, j :: 0 <= i < j < |d| ==> d[i] != d[j]
  }

  /** Whenever a prefix of `xs` contains an element of `d`, it contains every element listed before it. */
  predicate InFirstSeenOrder(d: seq<string>, xs: seq<string>)
  {
    forall i, j, n :: 0 <= i < j < |d| && 0 <= n <= |xs| && d[j] in xs[..n] ==> d[i] in xs[..n]
  }

  /**
   * `FirstSeen` lists each element once, and whenever a prefix of the input
   * contains a listed element it contains every element listed before it.
   */
  lemma {:induction false} FirstSeenOrder(xs: seq<string>)
    ensures AllDistinct(FirstSeen(xs))
    ensures InFirstSeenOrder(FirstSeen(xs), xs)
  {
    if |xs| > 0 {
      var init, x := xs[..|xs| - 1], xs[|xs| - 1];
      FirstSeenOrder(init);
      FirstSeenMembers(init);
      var p := FirstSeen(init);
      var d := FirstSeen(xs);
      assert d == if x in init then p else p + [x];
      forall i, j | 0 <= i < j < |d|
        ensures d[i] != d[j]
      {
        if j == |p| {
          assert d[i] == p[i] && p[i] in p;
        } else {
          assert d[i] == p[i] && d[j] == p[j];
        }
      }
      forall i, j, n | 0 <= i < j < |d| && 0 <= n <= |xs| && d[j] in xs[..n]
        ensures d[i] in xs[..n]
      {
        if n == |xs| {
          FirstSeenMembers(xs);
          assert xs[..n] == xs;
          assert d[i] in d;
        } else {
          assert xs[..n] == init[..n];
          assert d[i] == p[i] && d[j] == p[j];
        }
      }
    }
  }

  /**
   * The summary's affiliations are exactly the trimmed affiliations of the
   * rows, each once, in the order in which they first occur.
   */
  lemma AggregateKeyOrder(rows: seq<LabelledRecord>)
    ensures var keys, trimmed := Keys(Aggregate(rows)), KeysOf(Observations(rows));
            && AllDistinct(keys)
            && InFirstSeenOrder(keys, trimmed)
            && (forall k :: k in keys <==> k in trimmed)
  {
    var trimmed := KeysOf(Observations(rows));
    TallyKeys(Observations(rows));
    FirstSeenOrder(trimmed);
    FirstSeenMembers(trimmed);
  }
}
