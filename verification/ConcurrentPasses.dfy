/** Extraction passes sharing one catalog (src/sampleextract/run.py). What a file holds is given: whether it can be
    read, its module hash, and how parsing and ingesting its content would go. */
module ExtractionPass {
  import opened Sorting

  type Hash = nat

  /** Where an ingest of a file's content ends while its module is not there yet: it fails to parse, the catalog
      refuses it (before its module row is written or after), a constraint breaks, or it lands. */
  datatype Content = Unparsable | Refused(beforeTheRow: bool) | Breaking | Landing

  datatype File = Unreadable | Readable(hash: Hash, content: Content)

  datatype Stage = READ | PARSE | CATALOG

  datatype Outcome = Ingested | Skipped | Elsewhere | Failed(stage: Stage)

  datatype Look = Settled(outcome: Outcome) | Trying

  /** Reading a file and looking its module up. */
  function AtLook(catalog: set<Hash>, file: File): Look {
    if file.Unreadable? then Settled(Failed(READ))
    else if file.hash in catalog then Settled(Skipped)
    else if file.content.Unparsable? then Settled(Failed(PARSE))
    else Trying
  }

  datatype Ingest = Ended(outcome: Outcome) | Raised

  /** The ingest transaction, over the catalog as it is when the transaction gets there. */
  function AtIngest(catalog: set<Hash>, file: File): Ingest
    requires file.Readable? && file.content != Unparsable
  {
    if file.content == Refused(true) then Ended(Failed(CATALOG))
    else if file.hash in catalog then Ended(Elsewhere)
    else match file.content
      case Refused(_) => Ended(Failed(CATALOG))
      case Breaking => Raised
      case Landing => Ended(Ingested)
  }

  datatype Failure = Failure(position: nat, stage: Stage)

  datatype Summary = Summary(
    discovered: nat, ingested: seq<Hash>, skippedExisting: nat, ingestedElsewhere: nat, failures: seq<Failure>,
      present: set<Hash>)

  // ------------------------------------------------------------------ what a summary counts

  function IngestedOf(files: seq<File>, outcomes: seq<Outcome>): seq<Hash>
    requires |outcomes| <= |files|
  {
    if outcomes == [] then [] else
      var last := |outcomes| - 1;
      IngestedOf(files, outcomes[..last])
      + if outcomes[last].Ingested? && files[last].Readable? then [files[last].hash] else []
  }

  function FailuresOf(outcomes: seq<Outcome>): seq<Failure> {
    if outcomes == [] then [] else
      var last := |outcomes| - 1;
      FailuresOf(outcomes[..last]) + if outcomes[last].Failed? then [Failure(last, outcomes[last].stage)] else []
  }

  function CountOf(outcomes: seq<Outcome>, outcome: Outcome): nat {
    if outcomes == [] then 0 else
      var last := |outcomes| - 1;
      CountOf(outcomes[..last], outcome) + if outcomes[last] == outcome then 1 else 0
  }

  function PresentIn(files: seq<File>): set<Hash> {
    set f | f in files && f.Readable? :: f.hash
  }

  /** The summary of a pass that covered its files with these outcomes. */
  function SummaryOf(files: seq<File>, outcomes: seq<Outcome>): Summary
    requires |outcomes| == |files|
  {
    Summary(
      |files|, IngestedOf(files, outcomes), CountOf(outcomes, Skipped), CountOf(outcomes, Elsewhere),
        FailuresOf(outcomes), PresentIn(files))
  }

  ghost predicate Matching(files: seq<File>, outcomes: seq<Outcome>) {
    |outcomes| <= |files| && forall k :: 0 <= k < |outcomes| && outcomes[k].Ingested? ==> files[k].Readable?
  }

  /** Everything discovered is accounted for: ingested, already known, ingested elsewhere, or failed. */
  lemma {:induction false} EveryFileIsCounted(files: seq<File>, outcomes: seq<Outcome>)
    requires Matching(files, outcomes)
    ensures |outcomes| == |IngestedOf(files, outcomes)| + CountOf(outcomes, Skipped) + CountOf(outcomes, Elsewhere)
      + |FailuresOf(outcomes)|
  {
    if outcomes != [] {
      EveryFileIsCounted(files, outcomes[..|outcomes| - 1]);
    }
  }

  ghost predicate Accounted(s: Summary) {
    s.discovered == |s.ingested| + s.skippedExisting + s.ingestedElsewhere + |s.failures|
  }

  function Combined(summaries: seq<Summary>): Summary {
    if summaries == [] then Summary(0, [], 0, 0, [], {}) else
      var last := summaries[|summaries| - 1];
      var before := Combined(summaries[..|summaries| - 1]);
      Summary(
        before.discovered + last.discovered, before.ingested + last.ingested,
        before.skippedExisting + last.skippedExisting,
        before.ingestedElsewhere + last.ingestedElsewhere, before.failures + last.failures,
        before.present + last.present)
  }

  /** Shares added up leave nothing unaccounted for, and a hash is present exactly if some share read it. */
  lemma {:induction false} CombiningKeepsTheAccount(summaries: seq<Summary>)
    requires forall s :: s in summaries ==> Accounted(s)
    ensures Accounted(Combined(summaries))
    ensures forall h :: h in Combined(summaries).present <==> exists s :: s in summaries && h in s.present
    ensures forall h :: h in Combined(summaries).ingested <==> exists s :: s in summaries && h in s.ingested
  {
    if summaries != [] {
      var n := |summaries| - 1;
      CombiningKeepsTheAccount(summaries[..n]);
      assert summaries == summaries[..n] + [summaries[n]];
      assert forall s :: s in summaries <==> s in summaries[..n] || s == summaries[n];
      assert Accounted(summaries[n]);
    }
  }

  // ------------------------------------------------------------------ one pass, whatever the others do

  class Catalog {
    var modules: set<Hash>
  }

  /** What other passes land before a pass looks a file up, and after its look, before the insert where it comes to
      one. */
  datatype Meanwhile = Meanwhile(beforeLook: set<Hash>, beforeInsert: set<Hash>)

  datatype Covered = Covered(outcomes: seq<Outcome>, catalog: set<Hash>, raised: bool)

  /** What a pass makes of one more file: the outcome, the catalog then, or the error it is stopped by. */
  function CoverOne(before: Covered, file: File, other: Meanwhile): Covered {
    var looked := before.catalog + other.beforeLook;
    var reached := looked + other.beforeInsert;
    match AtLook(looked, file)
    case Settled(outcome) => Covered(before.outcomes + [outcome], reached, false)
    case Trying =>
      match AtIngest(reached, file)
      case Raised => Covered(before.outcomes, reached, true)
      case Ended(outcome) =>
        Covered(before.outcomes + [outcome], if outcome.Ingested? then reached + {file.hash} else reached, false)
  }

  /** What a pass makes of its first n files among the others. */
  ghost function CoveredBy(start: set<Hash>, files: seq<File>, others: seq<Meanwhile>, n: nat): Covered
    requires n <= |files| == |others|
  {
    if n == 0 then Covered([], start, false) else
      var before := CoveredBy(start, files, others, n - 1);
      if before.raised then before else CoverOne(before, files[n - 1], others[n - 1])
  }

  datatype PassResult = Finished(summary: Summary) | Stopped

  /** What the others land while the pass covers its first n files. */
  function LandedBy(others: seq<Meanwhile>, n: nat): set<Hash>
    requires n <= |others|
  {
    if n == 0 then {} else LandedBy(others, n - 1) + others[n - 1].beforeLook + others[n - 1].beforeInsert
  }

  function AsSet(hashes: seq<Hash>): set<Hash> {
    set h | h in hashes
  }

  /** How many files a pass has looked at, the one its error was raised at among them. */
  function Looked(c: Covered): nat {
    |c.outcomes| + if c.raised then 1 else 0
  }

  /** A pass's outcomes match its files; the catalog is its start, what the others landed and what the pass ingested,
      each module once and none that was there; and what is not cataloged has failed. */
  ghost predicate Honest(start: set<Hash>, files: seq<File>, others: seq<Meanwhile>, c: Covered)
    requires |files| == |others|
  {
    && Matching(files, c.outcomes) && Looked(c) <= |files|
    && c.catalog == start + LandedBy(others, Looked(c)) + AsSet(IngestedOf(files, c.outcomes))
    && Distinct(IngestedOf(files, c.outcomes)) && start !! AsSet(IngestedOf(files, c.outcomes))
    && forall k :: 0 <= k < |c.outcomes| && !c.outcomes[k].Failed? ==> files[k].Readable? && files[k].hash in c.catalog
  }

  lemma LandedByOneMore(others: seq<Meanwhile>, n: nat)
    requires n < |others|
    ensures LandedBy(others, n + 1) == LandedBy(others, n) + others[n].beforeLook + others[n].beforeInsert
  {
  }

  lemma LooksSettle(catalog: set<Hash>, file: File)
    ensures var look := AtLook(catalog, file);
      if look.Settled?
      then !look.outcome.Ingested? && (look.outcome.Failed? || (file.Readable? && file.hash in catalog))
      else file.Readable? && file.content != Unparsable
  {
  }

  lemma IngestsEnd(catalog: set<Hash>, file: File)
    requires file.Readable? && file.content != Unparsable
    ensures var ingest := AtIngest(catalog, file);
      ingest.Ended? ==>
        if ingest.outcome.Ingested? then file.hash !in catalog else ingest.outcome.Failed? || file.hash in catalog
  {
  }

  // Whatever a pass meets at its next file: an outcome that ingests nothing, an error raised, or an ingest.
  lemma StayingHonest(start: set<Hash>, files: seq<File>, others: seq<Meanwhile>, before: Covered, outcome: Outcome,
      reached: set<Hash>)
    requires |files| == |others| && Honest(start, files, others, before) && !before.raised
      && |before.outcomes| < |files|
    requires var i := |before.outcomes|; reached == before.catalog + others[i].beforeLook + others[i].beforeInsert
    requires !outcome.Ingested?
    requires outcome.Failed? || (files[|before.outcomes|].Readable? && files[|before.outcomes|].hash in reached)
    ensures Honest(start, files, others, Covered(before.outcomes + [outcome], reached, false))
  {
    IngestedOfOneMore(files, before.outcomes, outcome);
    LandedByOneMore(others, |before.outcomes|);
    hide IngestedOf, LandedBy, AsSet, Distinct;
  }

  lemma RaisingStaysHonest(start: set<Hash>, files: seq<File>, others: seq<Meanwhile>, before: Covered,
      reached: set<Hash>)
    requires |files| == |others| && Honest(start, files, others, before) && !before.raised
      && |before.outcomes| < |files|
    requires var i := |before.outcomes|; reached == before.catalog + others[i].beforeLook + others[i].beforeInsert
    ensures Honest(start, files, others, Covered(before.outcomes, reached, true))
  {
    LandedByOneMore(others, |before.outcomes|);
    hide IngestedOf, LandedBy, AsSet, Distinct;
  }

  lemma OneMoreIsNew(start: set<Hash>, ingested: seq<Hash>, h: Hash)
    requires Distinct(ingested) && start !! AsSet(ingested) && h !in start && h !in AsSet(ingested)
    ensures Distinct(ingested + [h]) && start !! AsSet(ingested + [h]) && AsSet(ingested + [h]) == AsSet(ingested) + {h}
  {
    assert h !in ingested;
  }

  lemma IngestingHonestly(start: set<Hash>, files: seq<File>, others: seq<Meanwhile>, before: Covered,
      reached: set<Hash>)
    requires |files| == |others| && Honest(start, files, others, before) && !before.raised
      && |before.outcomes| < |files|
    requires var i := |before.outcomes|; reached == before.catalog + others[i].beforeLook + others[i].beforeInsert
    requires files[|before.outcomes|].Readable? && files[|before.outcomes|].hash !in reached
    ensures Honest(start, files, others, Covered(before.outcomes + [Ingested],
      reached + {files[|before.outcomes|].hash}, false))
  {
    hide IngestedOf, LandedBy, AsSet, Distinct;
    IngestedOfOneMore(files, before.outcomes, Ingested);
    LandedByOneMore(others, |before.outcomes|);
    OneMoreIsNew(start, IngestedOf(files, before.outcomes), files[|before.outcomes|].hash);
  }

  lemma {:induction false} CoveringIsHonest(start: set<Hash>, files: seq<File>, others: seq<Meanwhile>, n: nat)
    requires n <= |files| == |others|
    ensures Honest(start, files, others, CoveredBy(start, files, others, n))
    ensures var c := CoveredBy(start, files, others, n); |c.outcomes| <= n && (!c.raised ==> |c.outcomes| == n)
  {
    if n > 0 {
      CoveringIsHonest(start, files, others, n - 1);
      var before, c := CoveredBy(start, files, others, n - 1), CoveredBy(start, files, others, n);
      if !before.raised {
        var looked := before.catalog + others[n - 1].beforeLook;
        var reached := looked + others[n - 1].beforeInsert;
        var look := AtLook(looked, files[n - 1]);
        LooksSettle(looked, files[n - 1]);
        if look.Settled? {
          assert c == Covered(before.outcomes + [look.outcome], reached, false);
          hide *;
          StayingHonest(start, files, others, before, look.outcome, reached);
        } else {
          var ingest := AtIngest(reached, files[n - 1]);
          IngestsEnd(reached, files[n - 1]);
          if ingest.Raised? {
            assert c == Covered(before.outcomes, reached, true);
            hide *;
            RaisingStaysHonest(start, files, others, before, reached);
          } else if ingest.outcome.Ingested? {
            assert c == Covered(before.outcomes + [Ingested], reached + {files[n - 1].hash}, false);
            hide *;
            IngestingHonestly(start, files, others, before, reached);
          } else {
            assert c == Covered(before.outcomes + [ingest.outcome], reached, false);
            hide *;
            StayingHonest(start, files, others, before, ingest.outcome, reached);
          }
        }
      }
    } else {
      assert Honest(start, files, others, Covered([], start, false));
    }
  }

  lemma IngestedOfOneMore(files: seq<File>, outcomes: seq<Outcome>, outcome: Outcome)
    requires |outcomes| < |files| && (outcome.Ingested? ==> files[|outcomes|].Readable?)
    ensures IngestedOf(files, outcomes + [outcome])
         == IngestedOf(files, outcomes) + if outcome.Ingested? then [files[|outcomes|].hash] else []
    ensures AsSet(IngestedOf(files, outcomes + [outcome]))
         == AsSet(IngestedOf(files, outcomes)) + if outcome.Ingested? then {files[|outcomes|].hash} else {}
  {
    assert (outcomes + [outcome])[..|outcomes|] == outcomes;
  }

  lemma OneAlone(summary: Summary)
    ensures Combined([summary]) == summary
  {
    assert [summary][..0] == [];
  }

  ghost function Together(one: Summary, two: Summary): Summary {
    Summary(one.discovered + two.discovered, one.ingested + two.ingested, one.skippedExisting + two.skippedExisting,
      one.ingestedElsewhere + two.ingestedElsewhere, one.failures + two.failures, one.present + two.present)
  }

  lemma OneMoreShare(before: seq<Summary>, last: Summary)
    ensures Combined(before + [last]) == Together(Combined(before), last)
  {
    assert (before + [last])[..|before|] == before;
  }

  lemma NothingTogether(one: Summary)
    ensures Together(one, Combined([])) == one
  {
    assert one.present + {} == one.present;
  }

  lemma TogetherInTurn(one: Summary, two: Summary, three: Summary)
    ensures Together(Together(one, two), three) == Together(one, Together(two, three))
  {
    assert one.present + two.present + three.present == one.present + (two.present + three.present);
    assert one.ingested + two.ingested + three.ingested == one.ingested + (two.ingested + three.ingested);
    assert one.failures + two.failures + three.failures == one.failures + (two.failures + three.failures);
  }

  lemma {:induction false} CombiningInTurn(one: seq<Summary>, two: seq<Summary>)
    ensures Combined(one + two) == Together(Combined(one), Combined(two))
  {
    hide *;
    if two == [] {
      assert one + two == one;
      NothingTogether(Combined(one));
    } else {
      var init, last := two[..|two| - 1], two[|two| - 1];
      assert two == init + [last] && one + two == (one + init) + [last];
      CombiningInTurn(one, init);
      OneMoreShare(init, last);
      OneMoreShare(one + init, last);
      TogetherInTurn(Combined(one), Combined(init), last);
    }
  }

  /** Shares combine in any grouping, field by field, and one share alone is what it is. */
  lemma CombiningAddsUp(one: seq<Summary>, two: seq<Summary>)
    ensures |one| == 1 ==> Combined(one) == one[0]
    ensures var a, b, c := Combined(one), Combined(two), Combined(one + two);
      && c.discovered == a.discovered + b.discovered && c.ingested == a.ingested + b.ingested
      && c.skippedExisting == a.skippedExisting + b.skippedExisting
      && c.ingestedElsewhere == a.ingestedElsewhere + b.ingestedElsewhere
      && c.failures == a.failures + b.failures && c.present == a.present + b.present
  {
    hide Combined;
    if |one| == 1 {
      assert one == [one[0]];
      OneAlone(one[0]);
    }
    CombiningInTurn(one, two);
  }

  lemma {:induction false} FailuresAreNamed(outcomes: seq<Outcome>, k: nat)
    requires k < |outcomes|
    ensures outcomes[k].Failed? ==> Failure(k, outcomes[k].stage) in FailuresOf(outcomes)
  {
    var last := |outcomes| - 1;
    if k < last {
      FailuresAreNamed(outcomes[..last], k);
    }
  }

  /** A file of the share is cataloged, or named among the failures. */
  ghost predicate CatalogedOrNamed(files: seq<File>, modules: set<Hash>, failures: seq<Failure>, k: nat)
    requires k < |files|
  {
    (files[k].Readable? && files[k].hash in modules) || exists stage :: Failure(k, stage) in failures
  }

  /** What the catalog holds where a pass ends or stops: its start, what the others landed, and what the pass
      ingested. */
  ghost predicate CatalogHolds(start: set<Hash>, files: seq<File>, others: seq<Meanwhile>, modules: set<Hash>)
    requires |files| == |others|
  {
    var c := CoveredBy(start, files, others, |files|);
    && Matching(files, c.outcomes) && Looked(c) <= |files|
    && modules == start + LandedBy(others, Looked(c)) + AsSet(IngestedOf(files, c.outcomes))
  }

  /** What a finished pass's summary says of it: every file counted, and cataloged or named; what it ingested is new,
      each module once, and with the start and what the others landed it makes up the catalog. */
  ghost predicate SummaryHolds(start: set<Hash>, files: seq<File>, others: seq<Meanwhile>, modules: set<Hash>,
      summary: Summary)
    requires |files| == |others|
  {
    && Accounted(summary) && summary.discovered == |files|
    && Distinct(summary.ingested) && start !! AsSet(summary.ingested)
    && modules == start + LandedBy(others, |files|) + AsSet(summary.ingested)
    && forall k :: 0 <= k < |files| ==> CatalogedOrNamed(files, modules, summary.failures, k)
  }

  // ------------------------------------------------------------------ what becomes of each file

  /** What becomes of a file that is read, by whether its module is cataloged at its look and by its insert: skipped
      exactly if it is there at its look; ingested exactly if it is not there by its insert and its content lands;
      elsewhere exactly if another put it there in between; and each failure for its own reason alone. */
  ghost predicate RightOutcome(content: Content, atLook: bool, atInsert: bool, outcome: Outcome) {
    && (outcome == Skipped <==> atLook)
    && (outcome == Ingested <==> !atInsert && content == Landing)
    && (outcome == Elsewhere <==> !atLook && atInsert && content != Unparsable && content != Refused(true))
    && (outcome == Failed(PARSE) <==> !atLook && content == Unparsable)
    && (outcome == Failed(CATALOG) <==>
          !atLook && (content == Refused(true) || (content == Refused(false) && !atInsert)))
    && outcome != Failed(READ)
  }

  ghost predicate LandedBefore(others: seq<Meanwhile>, k: nat, h: Hash) {
    exists j :: 0 <= j < k && j < |others| && (h in others[j].beforeLook || h in others[j].beforeInsert)
  }

  ghost predicate IngestedBefore(files: seq<File>, outcomes: seq<Outcome>, k: nat, h: Hash) {
    exists j :: 0 <= j < k && j < |outcomes| && j < |files| && outcomes[j] == Ingested && files[j].Readable?
      && files[j].hash == h
  }

  /** A module is there as the pass looks its k-th file up: from the start, from another pass, or from its own. */
  ghost predicate KnownAtLook(start: set<Hash>, files: seq<File>, others: seq<Meanwhile>, outcomes: seq<Outcome>,
      k: nat, h: Hash)
    requires k < |others|
  {
    h in start || LandedBefore(others, k, h) || h in others[k].beforeLook || IngestedBefore(files, outcomes, k, h)
  }

  ghost predicate KnownAtInsert(start: set<Hash>, files: seq<File>, others: seq<Meanwhile>, outcomes: seq<Outcome>,
      k: nat, h: Hash)
    requires k < |others|
  {
    KnownAtLook(start, files, others, outcomes, k, h) || h in others[k].beforeInsert
  }

  ghost predicate RightAt(start: set<Hash>, files: seq<File>, others: seq<Meanwhile>, outcomes: seq<Outcome>, k: nat)
    requires k < |outcomes| <= |files| == |others|
  {
    match files[k]
    case Unreadable => outcomes[k] == Failed(READ)
    case Readable(h, content) =>
      RightOutcome(content, KnownAtLook(start, files, others, outcomes, k, h),
        KnownAtInsert(start, files, others, outcomes, k, h), outcomes[k])
  }

  /** A constraint breaks at the k-th file, and not because its module is there. */
  ghost predicate BreaksAt(start: set<Hash>, files: seq<File>, others: seq<Meanwhile>, outcomes: seq<Outcome>, k: nat)
    requires k < |files| == |others|
  {
    files[k].Readable? && files[k].content == Breaking
    && !KnownAtInsert(start, files, others, outcomes, k, files[k].hash)
  }

  ghost predicate AllRight(start: set<Hash>, files: seq<File>, others: seq<Meanwhile>, outcomes: seq<Outcome>)
    requires |outcomes| <= |files| == |others|
  {
    forall k :: 0 <= k < |outcomes| ==> RightAt(start, files, others, outcomes, k)
  }

  ghost predicate IsCatalog(start: set<Hash>, files: seq<File>, others: seq<Meanwhile>, outcomes: seq<Outcome>,
      looked: nat, modules: set<Hash>) {
    forall h :: h in modules <==>
      h in start || LandedBefore(others, looked, h) || IngestedBefore(files, outcomes, |outcomes|, h)
  }

  // The outcomes before a position decide what is known there.
  lemma KnownAlike(start: set<Hash>, files: seq<File>, others: seq<Meanwhile>, outcomes: seq<Outcome>, outcome: Outcome,
      k: nat, h: Hash)
    requires k <= |outcomes| && k < |others|
    ensures KnownAtLook(start, files, others, outcomes + [outcome], k, h)
       <==> KnownAtLook(start, files, others, outcomes, k, h)
    ensures KnownAtInsert(start, files, others, outcomes + [outcome], k, h)
       <==> KnownAtInsert(start, files, others, outcomes, k, h)
  {
    var more := outcomes + [outcome];
    assert forall j :: 0 <= j < k ==> more[j] == outcomes[j];
    if IngestedBefore(files, more, k, h) {
      var j :| 0 <= j < k && j < |more| && j < |files| && more[j] == Ingested && files[j].Readable?
        && files[j].hash == h;
      assert outcomes[j] == Ingested;
    }
    if IngestedBefore(files, outcomes, k, h) {
      var j :| 0 <= j < k && j < |outcomes| && j < |files| && outcomes[j] == Ingested && files[j].Readable?
        && files[j].hash == h;
      assert more[j] == Ingested;
    }
    hide LandedBefore, IngestedBefore;
  }

  // One more outcome, right where it is, leaves the others right.
  lemma StayingRight(start: set<Hash>, files: seq<File>, others: seq<Meanwhile>, outcomes: seq<Outcome>,
      outcome: Outcome)
    requires |outcomes| < |files| == |others| && AllRight(start, files, others, outcomes)
    requires RightAt(start, files, others, outcomes + [outcome], |outcomes|)
    ensures AllRight(start, files, others, outcomes + [outcome])
  {
    var more := outcomes + [outcome];
    forall k | 0 <= k < |more|
      ensures RightAt(start, files, others, more, k)
    {
      if k < |outcomes| {
        assert RightAt(start, files, others, outcomes, k);
        if files[k].Readable? {
          KnownAlike(start, files, others, outcomes, outcome, k, files[k].hash);
        }
        hide KnownAtLook, KnownAtInsert, RightOutcome;
        assert more[k] == outcomes[k];
      }
    }
  }

  lemma LandedOneMore(others: seq<Meanwhile>, k: nat, h: Hash)
    requires k < |others|
    ensures LandedBefore(others, k + 1, h) <==>
      LandedBefore(others, k, h) || h in others[k].beforeLook || h in others[k].beforeInsert
  {
    if LandedBefore(others, k, h) {
      var j :| 0 <= j < k && j < |others| && (h in others[j].beforeLook || h in others[j].beforeInsert);
      assert j < k + 1;
    }
  }

  lemma IngestedOneMore(files: seq<File>, outcomes: seq<Outcome>, outcome: Outcome, h: Hash)
    requires |outcomes| < |files|
    ensures var n := |outcomes|;
      IngestedBefore(files, outcomes + [outcome], n + 1, h) <==>
        IngestedBefore(files, outcomes, n, h) || (outcome == Ingested && files[n].Readable? && files[n].hash == h)
  {
    var more, n := outcomes + [outcome], |outcomes|;
    assert forall j :: 0 <= j < n ==> more[j] == outcomes[j];
    assert more[n] == outcome;
    if IngestedBefore(files, outcomes, n, h) {
      var j :| 0 <= j < n && j < |outcomes| && j < |files| && outcomes[j] == Ingested && files[j].Readable?
        && files[j].hash == h;
      assert more[j] == Ingested;
    }
  }

  // The catalog stays what the start, the others and the pass's own ingests make it.
  lemma CatalogOneMore(start: set<Hash>, files: seq<File>, others: seq<Meanwhile>, outcomes: seq<Outcome>,
      outcome: Outcome, modules: set<Hash>)
    requires |outcomes| < |files| == |others| && IsCatalog(start, files, others, outcomes, |outcomes|, modules)
    requires outcome == Ingested ==> files[|outcomes|].Readable?
    ensures var n := |outcomes|; var reached := modules + others[n].beforeLook + others[n].beforeInsert;
      && IsCatalog(start, files, others, outcomes, n + 1, reached)
      && IsCatalog(start, files, others, outcomes + [outcome], n + 1,
           if outcome == Ingested then reached + {files[n].hash} else reached)
  {
    forall h
      ensures LandedBefore(others, |outcomes| + 1, h) <==>
        LandedBefore(others, |outcomes|, h)
        || h in others[|outcomes|].beforeLook || h in others[|outcomes|].beforeInsert
      ensures IngestedBefore(files, outcomes + [outcome], |outcomes| + 1, h) <==>
        IngestedBefore(files, outcomes, |outcomes|, h)
        || (outcome == Ingested && files[|outcomes|].Readable? && files[|outcomes|].hash == h)
    {
      LandedOneMore(others, |outcomes|, h);
      IngestedOneMore(files, outcomes, outcome, h);
    }
    hide LandedBefore, IngestedBefore;
  }

  lemma LooksAreRight(start: set<Hash>, files: seq<File>, others: seq<Meanwhile>, outcomes: seq<Outcome>,
      modules: set<Hash>)
    requires |outcomes| < |files| == |others| && IsCatalog(start, files, others, outcomes, |outcomes|, modules)
    requires files[|outcomes|].Readable?
    ensures var n := |outcomes|; var h := files[n].hash;
      && (h in modules + others[n].beforeLook <==> KnownAtLook(start, files, others, outcomes, n, h))
      && (h in modules + others[n].beforeLook + others[n].beforeInsert <==>
            KnownAtInsert(start, files, others, outcomes, n, h))
  {
    hide LandedBefore, IngestedBefore;
  }

  // The next outcome of a pass is the right one, or it stops exactly where a constraint breaks.
  lemma TheNextIsRight(start: set<Hash>, files: seq<File>, others: seq<Meanwhile>, outcomes: seq<Outcome>,
      modules: set<Hash>)
    requires |outcomes| < |files| == |others| && IsCatalog(start, files, others, outcomes, |outcomes|, modules)
    ensures var n := |outcomes|; var next := CoverOne(Covered(outcomes, modules, false), files[n], others[n]);
      if next.raised then
        && next.outcomes == outcomes && BreaksAt(start, files, others, outcomes, n)
        && next.catalog == modules + others[n].beforeLook + others[n].beforeInsert
      else
        && |next.outcomes| == n + 1 && next.outcomes == outcomes + [next.outcomes[n]]
        && RightAt(start, files, others, next.outcomes, n) && (next.outcomes[n] == Ingested ==> files[n].Readable?)
        && next.catalog == modules + others[n].beforeLook + others[n].beforeInsert
                           + if next.outcomes[n] == Ingested then {files[n].hash} else {}
  {
    var n := |outcomes|;
    var next := CoverOne(Covered(outcomes, modules, false), files[n], others[n]);
    if files[n].Readable? {
      LooksAreRight(start, files, others, outcomes, modules);
      if !next.raised {
        KnownAlike(start, files, others, outcomes, next.outcomes[n], n, files[n].hash);
      }
      hide KnownAtLook, KnownAtInsert;
    }
  }

  lemma {:induction false} OutcomesAreRight(start: set<Hash>, files: seq<File>, others: seq<Meanwhile>, n: nat)
    requires n <= |files| == |others|
    ensures var c := CoveredBy(start, files, others, n);
      && |c.outcomes| <= n && AllRight(start, files, others, c.outcomes)
      && IsCatalog(start, files, others, c.outcomes, if c.raised then |c.outcomes| + 1 else n, c.catalog)
      && (if c.raised then |c.outcomes| < n && BreaksAt(start, files, others, c.outcomes, |c.outcomes|)
          else |c.outcomes| == n)
  {
    if n > 0 {
      OutcomesAreRight(start, files, others, n - 1);
      var before := CoveredBy(start, files, others, n - 1);
      if !before.raised {
        var c := CoveredBy(start, files, others, n);
        assert c == CoverOne(before, files[n - 1], others[n - 1]);
        hide *;
        TheNextIsRight(start, files, others, before.outcomes, before.catalog);
        if c.raised {
          CatalogOneMore(start, files, others, before.outcomes, Skipped, before.catalog);
        } else {
          CatalogOneMore(start, files, others, before.outcomes, c.outcomes[n - 1], before.catalog);
          StayingRight(start, files, others, before.outcomes, c.outcomes[n - 1]);
        }
      }
    }
  }

  // ------------------------------------------------------------------ what the summary tells

  ghost function Earlier(outcomes: seq<Outcome>, k: nat, outcome: Outcome): set<nat> {
    set j: nat | 0 <= j < k && j < |outcomes| && outcomes[j] == outcome
  }

  ghost function EarlierFailures(outcomes: seq<Outcome>, k: nat): set<nat> {
    set j: nat | 0 <= j < k && j < |outcomes| && outcomes[j].Failed?
  }

  /** The modules ingested, in the order of their files. */
  ghost predicate TellsIngested(ingested: seq<Hash>, files: seq<File>, outcomes: seq<Outcome>)
    requires |outcomes| <= |files|
  {
    && |ingested| == |Earlier(outcomes, |outcomes|, Ingested)|
    && forall k :: 0 <= k < |outcomes| && outcomes[k] == Ingested ==>
         var n := |Earlier(outcomes, k, Ingested)|;
         n < |ingested| && files[k].Readable? && ingested[n] == files[k].hash
  }

  /** The failures, each with its stage, in the order of their files. */
  ghost predicate TellsFailures(failures: seq<Failure>, outcomes: seq<Outcome>) {
    && |failures| == |EarlierFailures(outcomes, |outcomes|)|
    && forall k :: 0 <= k < |outcomes| && outcomes[k].Failed? ==>
         var n := |EarlierFailures(outcomes, k)|;
         n < |failures| && failures[n] == Failure(k, outcomes[k].stage)
  }

  /** What a summary says of a pass over these files with these outcomes. */
  ghost predicate Tells(summary: Summary, files: seq<File>, outcomes: seq<Outcome>)
    requires |outcomes| <= |files|
  {
    && summary.discovered == |files|
    && TellsIngested(summary.ingested, files, outcomes) && TellsFailures(summary.failures, outcomes)
    && summary.skippedExisting == |Earlier(outcomes, |outcomes|, Skipped)|
    && summary.ingestedElsewhere == |Earlier(outcomes, |outcomes|, Elsewhere)|
    && forall h :: h in summary.present <==> exists k :: 0 <= k < |files| && files[k].Readable? && files[k].hash == h
  }

  lemma EarlierOneMore(outcomes: seq<Outcome>, outcome: Outcome, more: Outcome)
    ensures var n := |outcomes|;
      |Earlier(outcomes + [more], n + 1, outcome)| == |Earlier(outcomes, n, outcome)| + if more == outcome then 1 else 0
  {
    var n := |outcomes|;
    var before, after := Earlier(outcomes, n, outcome), Earlier(outcomes + [more], n + 1, outcome);
    forall j: nat
      ensures j in after <==> j in before || (j == n && more == outcome)
    {
    }
    hide Earlier;
    assert after == before + if more == outcome then {n} else {};
  }

  lemma EarlierAlike(outcomes: seq<Outcome>, more: Outcome, k: nat, outcome: Outcome)
    requires k <= |outcomes|
    ensures Earlier(outcomes + [more], k, outcome) == Earlier(outcomes, k, outcome)
    ensures EarlierFailures(outcomes + [more], k) == EarlierFailures(outcomes, k)
  {
  }

  lemma FewerEarlier(outcomes: seq<Outcome>, k: nat, outcome: Outcome)
    requires k < |outcomes|
    ensures outcomes[k] == outcome ==> |Earlier(outcomes, k, outcome)| < |Earlier(outcomes, |outcomes|, outcome)|
    ensures outcomes[k].Failed? ==> |EarlierFailures(outcomes, k)| < |EarlierFailures(outcomes, |outcomes|)|
  {
    if outcomes[k] == outcome {
      SubsetIsNoLarger(Earlier(outcomes, k, outcome) + {k}, Earlier(outcomes, |outcomes|, outcome));
    }
    if outcomes[k].Failed? {
      SubsetIsNoLarger(EarlierFailures(outcomes, k) + {k}, EarlierFailures(outcomes, |outcomes|));
    }
  }

  lemma {:induction false} CountsTell(outcomes: seq<Outcome>, outcome: Outcome)
    ensures CountOf(outcomes, outcome) == |Earlier(outcomes, |outcomes|, outcome)|
  {
    if outcomes != [] {
      var init, last := outcomes[..|outcomes| - 1], outcomes[|outcomes| - 1];
      CountsTell(init, outcome);
      EarlierOneMore(init, outcome, last);
      assert outcomes == init + [last];
    }
  }

  lemma OneMoreTellsIngested(files: seq<File>, init: seq<Outcome>, last: Outcome, ingested: seq<Hash>)
    requires Matching(files, init + [last]) && |init| < |files| && TellsIngested(ingested, files, init)
    ensures var file := files[|init|];
      TellsIngested(ingested + (if last.Ingested? && file.Readable? then [file.hash] else []), files, init + [last])
  {
    hide Earlier;
    var outcomes, n, file := init + [last], |init|, files[|init|];
    assert outcomes[n] == last;
    EarlierOneMore(init, Ingested, last);
    forall k | 0 <= k < |outcomes| && outcomes[k] == Ingested
      ensures var m, more := |Earlier(outcomes, k, Ingested)|,
          ingested + if last.Ingested? && file.Readable? then [file.hash] else [];
        m < |more| && files[k].Readable? && more[m] == files[k].hash
    {
      EarlierAlike(init, last, k, Ingested);
      assert k < n ==> init[k] == outcomes[k];
    }
  }

  lemma {:induction false} IngestedTell(files: seq<File>, outcomes: seq<Outcome>)
    requires Matching(files, outcomes)
    ensures TellsIngested(IngestedOf(files, outcomes), files, outcomes)
  {
    if outcomes != [] {
      var n := |outcomes| - 1;
      var init, last := outcomes[..n], outcomes[n];
      assert outcomes == init + [last];
      IngestedTell(files, init);
      hide *;
      OneMoreTellsIngested(files, init, last, IngestedOf(files, init));
      OneMoreOutcome(files, init, last);
    }
  }

  lemma FailuresOneMore(outcomes: seq<Outcome>, more: Outcome)
    ensures var n := |outcomes|;
      |EarlierFailures(outcomes + [more], n + 1)| == |EarlierFailures(outcomes, n)| + if more.Failed? then 1 else 0
  {
    var n := |outcomes|;
    assert EarlierFailures(outcomes + [more], n + 1)
        == EarlierFailures(outcomes, n) + if more.Failed? then {n} else {};
  }

  lemma {:induction false} FailuresTell(outcomes: seq<Outcome>)
    ensures TellsFailures(FailuresOf(outcomes), outcomes)
  {
    if outcomes != [] {
      var n := |outcomes| - 1;
      var init, last := outcomes[..n], outcomes[n];
      assert outcomes == init + [last];
      FailuresTell(init);
      FailuresOneMore(init, last);
      forall k | 0 <= k < |outcomes| && outcomes[k].Failed?
        ensures var m := |EarlierFailures(outcomes, k)|; var failures := FailuresOf(outcomes);
          m < |failures| && failures[m] == Failure(k, outcomes[k].stage)
      {
        EarlierAlike(init, last, k, Skipped);
        FewerEarlier(outcomes, k, Skipped);
        assert k < n ==> init[k] == outcomes[k];
        hide EarlierFailures;
      }
    }
  }

  lemma PresentTell(files: seq<File>, h: Hash)
    ensures h in PresentIn(files) <==> exists k :: 0 <= k < |files| && files[k].Readable? && files[k].hash == h
  {
    if h in PresentIn(files) {
      var f :| f in files && f.Readable? && f.hash == h;
      var k :| 0 <= k < |files| && files[k] == f;
      assert files[k].Readable? && files[k].hash == h;
    }
    if k :| 0 <= k < |files| && files[k].Readable? && files[k].hash == h {
      assert files[k] in files;
    }
  }

  lemma SummariesTell(files: seq<File>, outcomes: seq<Outcome>)
    requires Matching(files, outcomes) && |outcomes| == |files|
    ensures Tells(SummaryOf(files, outcomes), files, outcomes)
  {
    IngestedTell(files, outcomes);
    FailuresTell(outcomes);
    CountsTell(outcomes, Skipped);
    CountsTell(outcomes, Elsewhere);
    forall h
      ensures h in PresentIn(files) <==> exists k :: 0 <= k < |files| && files[k].Readable? && files[k].hash == h
    {
      PresentTell(files, h);
    }
    hide Earlier, TellsIngested, TellsFailures, IngestedOf, FailuresOf, CountOf, PresentIn;
  }

  /** What a pass over its files, among the others, comes to: each file reached has the right outcome; the pass stops
      exactly at a file whose ingest breaks a constraint, and else its summary tells what became of every file; and the
      catalog holds the start, what the others landed by then and what the pass ingested. */
  ghost predicate Explains(start: set<Hash>, files: seq<File>, others: seq<Meanwhile>, outcomes: seq<Outcome>,
      modules: set<Hash>, result: PassResult)
    requires |files| == |others|
  {
    && |outcomes| <= |files| && AllRight(start, files, others, outcomes)
    && match result
       case Finished(summary) =>
         && |outcomes| == |files| && Tells(summary, files, outcomes)
         && IsCatalog(start, files, others, outcomes, |files|, modules)
       case Stopped =>
         && |outcomes| < |files| && BreaksAt(start, files, others, outcomes, |outcomes|)
         && IsCatalog(start, files, others, outcomes, |outcomes| + 1, modules)
  }

  lemma CoveringExplains(start: set<Hash>, files: seq<File>, others: seq<Meanwhile>)
    requires |files| == |others|
    ensures var c := CoveredBy(start, files, others, |files|);
      && |c.outcomes| <= |files| && (!c.raised ==> |c.outcomes| == |files|)
      && Explains(start, files, others, c.outcomes, c.catalog,
           if c.raised then Stopped else Finished(SummaryOf(files, c.outcomes)))
  {
    OutcomesAreRight(start, files, others, |files|);
    CoveringIsHonest(start, files, others, |files|);
    var c := CoveredBy(start, files, others, |files|);
    if !c.raised {
      SummariesTell(files, c.outcomes);
    }
    hide CoveredBy, AllRight, BreaksAt, IsCatalog, Tells, SummaryOf;
  }

  method RunExtraction(files: seq<File>, catalog: Catalog, others: seq<Meanwhile>) returns (result: PassResult)
    requires |others| == |files|
    modifies catalog
    ensures var covered := CoveredBy(old(catalog.modules), files, others, |files|);
      && catalog.modules == covered.catalog
      && (result.Stopped? <==> covered.raised)
      && (result.Finished? ==> |covered.outcomes| == |files| && result.summary == SummaryOf(files, covered.outcomes))
    ensures exists outcomes :: Explains(old(catalog.modules), files, others, outcomes, catalog.modules, result)
    ensures CatalogHolds(old(catalog.modules), files, others, catalog.modules)
    ensures result.Finished? ==> SummaryHolds(old(catalog.modules), files, others, catalog.modules, result.summary)
  {
    hide CatalogHolds, SummaryHolds, Explains;
    CoveringExplains(catalog.modules, files, others);
    var ingested: seq<Hash>, failures: seq<Failure>, present: set<Hash> := [], [], {};
    var skippedExisting, ingestedElsewhere := 0, 0;
    ghost var start, outcomes: seq<Outcome> := catalog.modules, [];
    for i := 0 to |files|
      invariant |outcomes| == i && CoveredBy(start, files, others, i) == Covered(outcomes, catalog.modules, false)
      invariant ingested == IngestedOf(files, outcomes) && failures == FailuresOf(outcomes)
      invariant skippedExisting == CountOf(outcomes, Skipped) && ingestedElsewhere == CountOf(outcomes, Elsewhere)
      invariant present == PresentIn(files[..i])
    {
      hide IngestedOf, FailuresOf, CountOf, PresentIn, SummaryOf, LandedBefore, IngestedBefore;
      var file := files[i];
      PresentInOneMore(files, i);
      assert CoveredBy(start, files, others, i + 1)
        == CoverOne(Covered(outcomes, catalog.modules, false), file, others[i]);
      hide CoveredBy;
      catalog.modules := catalog.modules + others[i].beforeLook;
      var known := file.Readable? && file.hash in catalog.modules;
      catalog.modules := catalog.modules + others[i].beforeInsert;
      ghost var outcome: Outcome;
      if file.Unreadable? {
        failures := failures + [Failure(i, READ)];
        outcome := Failed(READ);
      } else {
        present := present + {file.hash};
        if known {
          skippedExisting := skippedExisting + 1;
          outcome := Skipped;
        } else if file.content.Unparsable? {
          failures := failures + [Failure(i, PARSE)];
          outcome := Failed(PARSE);
        } else {
          var ended := AtIngest(catalog.modules, file);
          if ended.Raised? {
            RaisingStops(start, files, others, i + 1, |files|);
            HonestCatalog(start, files, others);
            return Stopped;
          }
          outcome := ended.outcome;
          if ended.outcome.Ingested? {
            catalog.modules := catalog.modules + {file.hash};
            ingested := ingested + [file.hash];
          } else if ended.outcome.Elsewhere? {
            ingestedElsewhere := ingestedElsewhere + 1;
          } else {
            failures := failures + [Failure(i, ended.outcome.stage)];
          }
        }
      }
      OneMoreOutcome(files, outcomes, outcome);
      outcomes := outcomes + [outcome];
    }
    hide CoveredBy, IngestedOf, FailuresOf, CountOf;
    assert files[..|files|] == files;
    result := Finished(Summary(|files|, ingested, skippedExisting, ingestedElsewhere, failures, present));
    HonestCatalog(start, files, others);
    HonestSummary(start, files, others);
  }

  lemma HonestCatalog(start: set<Hash>, files: seq<File>, others: seq<Meanwhile>)
    requires |files| == |others|
    ensures CatalogHolds(start, files, others, CoveredBy(start, files, others, |files|).catalog)
  {
    CoveringIsHonest(start, files, others, |files|);
  }

  lemma HonestSummary(start: set<Hash>, files: seq<File>, others: seq<Meanwhile>)
    requires |files| == |others| && !CoveredBy(start, files, others, |files|).raised
    ensures var c := CoveredBy(start, files, others, |files|);
      && |c.outcomes| == |files| && SummaryHolds(start, files, others, c.catalog, SummaryOf(files, c.outcomes))
  {
    CoveringIsHonest(start, files, others, |files|);
    var c := CoveredBy(start, files, others, |files|);
    EveryFileIsCounted(files, c.outcomes);
    forall k | 0 <= k < |files|
      ensures CatalogedOrNamed(files, c.catalog, FailuresOf(c.outcomes), k)
    {
      FailuresAreNamed(c.outcomes, k);
    }
  }

  lemma PresentInOneMore(files: seq<File>, i: nat)
    requires i < |files|
    ensures PresentIn(files[..i + 1]) == PresentIn(files[..i]) + if files[i].Readable? then {files[i].hash} else {}
  {
    assert files[..i + 1] == files[..i] + [files[i]];
  }

  lemma OneMoreOutcome(files: seq<File>, outcomes: seq<Outcome>, outcome: Outcome)
    requires |outcomes| < |files|
    ensures var more, file := outcomes + [outcome], files[|outcomes|];
      && IngestedOf(files, more) == IngestedOf(files, outcomes)
        + (if outcome.Ingested? && file.Readable? then [file.hash] else [])
      && FailuresOf(more) == FailuresOf(outcomes)
        + (if outcome.Failed? then [Failure(|outcomes|, outcome.stage)] else [])
      && CountOf(more, Skipped) == CountOf(outcomes, Skipped) + (if outcome == Skipped then 1 else 0)
      && CountOf(more, Elsewhere) == CountOf(outcomes, Elsewhere) + (if outcome == Elsewhere then 1 else 0)
  {
    assert (outcomes + [outcome])[..|outcomes|] == outcomes;
  }

  lemma {:induction false} RaisingStops(start: set<Hash>, files: seq<File>, others: seq<Meanwhile>, n: nat, m: nat)
    requires n <= m <= |files| == |others| && CoveredBy(start, files, others, n).raised
    ensures CoveredBy(start, files, others, m) == CoveredBy(start, files, others, n)
    decreases m - n
  {
    if n < m {
      RaisingStops(start, files, others, n, m - 1);
    }
  }
}

/** Any number of passes on one catalog, their steps interleaved in any way, each stopped at any point. */
module ConcurrentPasses {
  import opened ExtractionPass

  /** A pass part way through its share: the outcomes so far, and whether its next file was found absent and is being
      ingested. */
  datatype Pass = Pass(files: seq<File>, outcomes: seq<Outcome>, trying: bool, stopped: bool)

  datatype Place = At(pass: nat, position: nat)

  /** `landings` says which pass landed a module, at which of its files. */
  datatype State = State(start: set<Hash>, catalog: set<Hash>, passes: seq<Pass>, landings: map<Hash, Place>)

  datatype Move = Looking(i: nat) | Ingesting(i: nat) | Stopping(i: nat)

  predicate Enabled(s: State, m: Move) {
    && m.i < |s.passes| && !s.passes[m.i].stopped
    && match m
       case Looking(i) => !s.passes[i].trying && |s.passes[i].outcomes| < |s.passes[i].files|
       case Ingesting(i) => s.passes[i].trying
       case Stopping(_) => true
  }

  function Reached(p: Pass, outcome: Outcome): Pass {
    p.(outcomes := p.outcomes + [outcome], trying := false)
  }

  function Moved(s: State, m: Move): State
    requires Enabled(s, m) && Sound(s, m.i)
  {
    var p := s.passes[m.i];
    match m
    case Looking(i) =>
      (match AtLook(s.catalog, p.files[|p.outcomes|])
       case Settled(outcome) => s.(passes := s.passes[i := Reached(p, outcome)])
       case Trying => s.(passes := s.passes[i := p.(trying := true)]))
    case Ingesting(i) =>
      var file := p.files[|p.outcomes|];
      (match AtIngest(s.catalog, file)
       case Raised => s.(passes := s.passes[i := p.(stopped := true)])
       case Ended(outcome) =>
         if outcome.Ingested? then
           s.(catalog := s.catalog + {file.hash},
              passes := s.passes[i := Reached(p, outcome)],
              landings := s.landings[file.hash := At(i, |p.outcomes|)])
         else s.(passes := s.passes[i := Reached(p, outcome)]))
    case Stopping(i) => s.(passes := s.passes[i := p.(stopped := true)])
  }

  // One pass among the others: what it found known or landed is in the catalog, what it landed is recorded as its own.
  ghost predicate Sound(s: State, i: nat) {
    i < |s.passes| ==>
      var p := s.passes[i];
      && |p.outcomes| <= |p.files|
      && (p.trying ==>
            |p.outcomes| < |p.files| && p.files[|p.outcomes|].Readable? && p.files[|p.outcomes|].content != Unparsable)
      && forall k :: 0 <= k < |p.outcomes| && !p.outcomes[k].Failed? ==>
           && p.files[k].Readable? && p.files[k].hash in s.catalog
           && (p.outcomes[k].Ingested? ==> p.files[k].hash in s.landings && s.landings[p.files[k].hash] == At(i, k))
  }

  ghost predicate LandedThere(s: State, h: Hash) {
    h in s.landings ==>
      var i, k := s.landings[h].pass, s.landings[h].position;
      i < |s.passes| && k < |s.passes[i].outcomes| && k < |s.passes[i].files|
      && s.passes[i].outcomes[k].Ingested? && s.passes[i].files[k].Readable? && s.passes[i].files[k].hash == h
  }

  ghost predicate Invariant(s: State) {
    && (forall i {:trigger Sound(s, i)} :: 0 <= i < |s.passes| ==> Sound(s, i))
    && (forall h {:trigger LandedThere(s, h)} :: h in s.landings ==> LandedThere(s, h))
    && s.catalog == s.start + s.landings.Keys && s.start !! s.landings.Keys
  }

  lemma MovesKeepTheInvariant(s: State, m: Move)
    requires Invariant(s) && Enabled(s, m)
    ensures Sound(s, m.i) && Invariant(Moved(s, m)) && Moved(s, m).start == s.start
    ensures |Moved(s, m).passes| == |s.passes|
    ensures forall j :: 0 <= j < |s.passes| ==> Moved(s, m).passes[j].files == s.passes[j].files
  {
    assert Sound(s, m.i);
    var s' := Moved(s, m);
    forall j | 0 <= j < |s'.passes|
      ensures Sound(s', j)
    {
      MovesKeepPassesSound(s, m, j);
    }
    forall h | h in s'.landings
      ensures LandedThere(s', h)
    {
      LandingsStayThere(s, m, h);
    }
    hide Sound, LandedThere;
  }

  lemma MovesKeepPassesSound(s: State, m: Move, j: nat)
    requires Invariant(s) && Enabled(s, m) && Sound(s, m.i) && j < |s.passes|
    ensures Sound(Moved(s, m), j)
  {
    assert Sound(s, j);
    LandingsStay(s, m);
  }

  lemma LandingsStayThere(s: State, m: Move, h: Hash)
    requires Invariant(s) && Enabled(s, m) && Sound(s, m.i) && h in Moved(s, m).landings
    ensures LandedThere(Moved(s, m), h)
  {
    if h in s.landings {
      assert LandedThere(s, h);
    }
    LandingsStay(s, m);
  }

  // What a landing records is new, so no record of another pass is overwritten.
  lemma LandingsStay(s: State, m: Move)
    requires Invariant(s) && Enabled(s, m) && Sound(s, m.i)
    ensures forall h :: h in s.landings ==> h in Moved(s, m).landings && Moved(s, m).landings[h] == s.landings[h]
    ensures s.catalog <= Moved(s, m).catalog
  {
  }

  ghost predicate Run(s: State, moves: seq<Move>)
    decreases |moves|, 0
  {
    moves != [] ==>
      var init, last := moves[..|moves| - 1], moves[|moves| - 1];
      Run(s, init) && Enabled(After(s, init), last) && Sound(After(s, init), last.i)
  }

  ghost function After(s: State, moves: seq<Move>): State
    requires Run(s, moves)
    decreases |moves|, 1
  {
    if moves == [] then s else Moved(After(s, moves[..|moves| - 1]), moves[|moves| - 1])
  }

  /** Passes yet to begin. */
  ghost predicate Fresh(s: State) {
    s.catalog == s.start && s.landings == map[]
    && forall i :: 0 <= i < |s.passes| ==> s.passes[i].outcomes == [] && !s.passes[i].trying && !s.passes[i].stopped
  }

  lemma {:induction false} RunsKeepTheInvariant(s: State, moves: seq<Move>)
    requires Invariant(s) && Run(s, moves)
    ensures Invariant(After(s, moves)) && After(s, moves).start == s.start && |After(s, moves).passes| == |s.passes|
    ensures forall j :: 0 <= j < |s.passes| ==> After(s, moves).passes[j].files == s.passes[j].files
  {
    if moves != [] {
      var init := moves[..|moves| - 1];
      RunsKeepTheInvariant(s, init);
      MovesKeepTheInvariant(After(s, init), moves[|moves| - 1]);
      hide Invariant, Enabled, Moved, Sound;
    }
  }

  ghost predicate IngestedAt(s: State, i: nat, k: nat, h: Hash) {
    i < |s.passes| && k < |s.passes[i].outcomes| && k < |s.passes[i].files|
    && s.passes[i].outcomes[k].Ingested? && s.passes[i].files[k].Readable? && s.passes[i].files[k].hash == h
  }

  /** In every interleaving the catalog ends as its start and what the passes landed, each module landed by exactly
      one pass, once, and none that was there before. */
  lemma EachModuleLandsOnce(s: State, moves: seq<Move>, h: Hash)
    requires Fresh(s) && Run(s, moves)
    ensures var end := After(s, moves);
      && (h in end.catalog <==> h in s.start || exists i, k :: IngestedAt(end, i, k, h))
      && (forall i, k :: IngestedAt(end, i, k, h) ==> h !in s.start)
      && (forall i, k, j, l :: IngestedAt(end, i, k, h) && IngestedAt(end, j, l, h) ==> i == j && k == l)
  {
    var end := After(s, moves);
    RunsKeepTheInvariant(s, moves);
    forall i, k | IngestedAt(end, i, k, h)
      ensures h in end.landings && end.landings[h] == At(i, k)
    {
      assert Sound(end, i);
    }
    if h in end.landings {
      assert LandedThere(end, h);
      assert IngestedAt(end, end.landings[h].pass, end.landings[h].position, h);
    }
  }

  /** In every interleaving a file skipped as known, or counted as ingested elsewhere, has its module in the catalog,
      and a pass that finishes accounts for every file of its share. */
  lemma CoveredFilesAreCataloged(s: State, moves: seq<Move>, i: nat)
    requires Fresh(s) && Run(s, moves) && i < |s.passes|
    ensures |After(s, moves).passes| == |s.passes|
    ensures var p := After(s, moves).passes[i];
      && p.files == s.passes[i].files && |p.outcomes| <= |p.files|
      && (forall k :: 0 <= k < |p.outcomes| && !p.outcomes[k].Failed? ==>
            p.files[k].Readable? && p.files[k].hash in After(s, moves).catalog)
      && (|p.outcomes| == |p.files| ==> Accounted(SummaryOf(p.files, p.outcomes)))
  {
    RunsKeepTheInvariant(s, moves);
    var p := After(s, moves).passes[i];
    assert Sound(After(s, moves), i);
    EveryFileIsCounted(p.files, p.outcomes);
  }

  // ------------------------------------------------------------------ what becomes of each file, in every interleaving

  lemma {:induction false} RunsBegin(s: State, moves: seq<Move>, n: nat)
    requires Run(s, moves) && n <= |moves|
    ensures Run(s, moves[..n])
    decreases |moves|
  {
    if n == |moves| {
      assert moves[..n] == moves;
    } else {
      RunsBegin(s, moves[..|moves| - 1], n);
      assert moves[..|moves| - 1][..n] == moves[..n];
    }
  }

  /** The pass looks its k-th file up by the n-th move. */
  ghost predicate Looks(s: State, moves: seq<Move>, i: nat, k: nat, n: nat) {
    && n < |moves| && moves[n] == Looking(i) && Run(s, moves[..n])
    && var at := After(s, moves[..n]);
    i < |at.passes| && |at.passes[i].outcomes| == k && !at.passes[i].trying
  }

  /** It comes to insert it by the n-th, in the transaction it tries since its look. */
  ghost predicate Inserts(s: State, moves: seq<Move>, i: nat, k: nat, n: nat) {
    && n < |moves| && moves[n] == Ingesting(i) && Run(s, moves[..n])
    && var at := After(s, moves[..n]);
    i < |at.passes| && |at.passes[i].outcomes| == k && at.passes[i].trying
  }

  ghost predicate RightOf(file: File, atLook: set<Hash>, atInsert: set<Hash>, outcome: Outcome) {
    match file
    case Unreadable => outcome == Failed(READ)
    case Readable(h, content) => RightOutcome(content, h in atLook, h in atInsert, outcome)
  }

  /** An outcome of the pass's k-th file came about by its look, and where it tried by its insert, each over the catalog
      as it was at that moment. */
  ghost predicate CameAbout(s: State, moves: seq<Move>, i: nat, k: nat, file: File, outcome: Outcome, look: nat,
      insert: nat) {
    && Looks(s, moves, i, k, look) && (insert == look || (look < insert && Inserts(s, moves, i, k, insert)))
    && var atLook, atInsert := After(s, moves[..look]).catalog, After(s, moves[..insert]).catalog;
    RightOf(file, atLook, atInsert, outcome)
  }

  lemma LooksEarlier(s: State, init: seq<Move>, last: Move, i: nat, k: nat, n: nat)
    requires n < |init|
    ensures Looks(s, init + [last], i, k, n) <==> Looks(s, init, i, k, n)
    ensures Inserts(s, init + [last], i, k, n) <==> Inserts(s, init, i, k, n)
    ensures (init + [last])[..n] == init[..n]
  {
    assert (init + [last])[..n] == init[..n];
  }

  // One more outcome of a pass.
  ghost predicate OneMore(p: Pass, p': Pass) {
    !p'.trying && |p'.outcomes| == |p.outcomes| + 1 && p'.outcomes[..|p.outcomes|] == p.outcomes
  }

  /** A pass neither stopped nor at the end of its share can go on, whatever the others do, and can be stopped. */
  lemma UnfinishedPassesGoOn(s: State, i: nat) returns (m: Move)
    requires i < |s.passes| && !s.passes[i].stopped && |s.passes[i].outcomes| < |s.passes[i].files|
    ensures m.i == i && !m.Stopping? && Enabled(s, m) && Enabled(s, Stopping(i))
  {
    m := if s.passes[i].trying then Ingesting(i) else Looking(i);
  }

  /** What a move makes of its pass: a look either settles the file or goes on to try it, an ingest settles it, or stops
      the pass where a constraint breaks; and nothing else stops a pass but being stopped. */
  lemma MovesSettle(s: State, m: Move)
    requires Enabled(s, m) && Sound(s, m.i)
    ensures var p, p', catalog, catalog' := s.passes[m.i], Moved(s, m).passes[m.i], s.catalog, Moved(s, m).catalog;
      match m
      case Looking(_) =>
        var file := p.files[|p.outcomes|];
        && !p'.stopped && catalog' == catalog
        && (p'.trying <==> file.Readable? && file.hash !in catalog && file.content != Unparsable)
        && (p'.trying ==> p'.outcomes == p.outcomes)
        && (!p'.trying ==> OneMore(p, p') && RightOf(file, catalog, catalog, p'.outcomes[|p.outcomes|]))
      case Ingesting(_) =>
        var file := p.files[|p.outcomes|];
        && (p'.stopped <==> file.content == Breaking && file.hash !in catalog)
        && (p'.stopped ==> p'.outcomes == p.outcomes && catalog' == catalog)
        && (!p'.stopped ==>
              && OneMore(p, p') && RightOutcome(file.content, false, file.hash in catalog, p'.outcomes[|p.outcomes|])
              && catalog' == catalog + if p'.outcomes[|p.outcomes|] == Ingested then {file.hash} else {})
      case Stopping(_) => p' == p.(stopped := true) && catalog' == catalog
    ensures forall j :: 0 <= j < |s.passes| && j != m.i ==> Moved(s, m).passes[j] == s.passes[j]
  {
  }

  // A pass that tries a file has looked it up and not found it.
  lemma {:induction false} TryingHasItsLook(s: State, moves: seq<Move>, i: nat) returns (look: nat)
    requires Fresh(s) && Run(s, moves) && i < |s.passes|
    requires i < |After(s, moves).passes| && After(s, moves).passes[i].trying && Sound(After(s, moves), i)
    ensures var p := After(s, moves).passes[i]; var file := p.files[|p.outcomes|];
      && Looks(s, moves, i, |p.outcomes|, look) && file.Readable?
      && file.hash !in After(s, moves[..look]).catalog
  {
    if moves == [] {
      assert false;
    } else {
      var init, last := moves[..|moves| - 1], moves[|moves| - 1];
      assert moves == init + [last];
      RunsKeepTheInvariant(s, init);
      var before := After(s, init);
      MovesSettle(before, last);
      assert Sound(before, i);
      hide Moved, Invariant, Sound;
      if before.passes[i].trying && last.i == i && last.Looking? {
        assert false;
      } else if last.i == i && last.Looking? {
        look := |init|;
      } else {
        look := TryingHasItsLook(s, init, i);
        LooksEarlier(s, init, last, i, |before.passes[i].outcomes|, look);
      }
    }
  }

  /** In every interleaving, each outcome of each pass is the right one over the catalog as it was at the pass's look
      for that file, and as it was at its insert where it came to one. */
  lemma {:induction false} OutcomesHaveTheirMoves(s: State, moves: seq<Move>, i: nat, k: nat)
    returns (look: nat, insert: nat)
    requires Fresh(s) && Run(s, moves) && i < |s.passes|
    requires i < |After(s, moves).passes| && k < |After(s, moves).passes[i].outcomes|
    ensures var p := After(s, moves).passes[i];
      k < |p.files| && CameAbout(s, moves, i, k, p.files[k], p.outcomes[k], look, insert)
  {
    if moves == [] {
      assert false;
    } else {
      var init, last := moves[..|moves| - 1], moves[|moves| - 1];
      assert moves == init + [last];
      RunsKeepTheInvariant(s, init);
      RunsKeepTheInvariant(s, moves);
      var before, after := After(s, init), After(s, moves);
      MovesSettle(before, last);
      assert Sound(before, i) && Sound(after, i);
      var p, p' := before.passes[i], after.passes[i];
      if k < |p.outcomes| {
        assert p'.outcomes[k] == p.outcomes[k] && p'.files == p.files;
        look, insert := OutcomesHaveTheirMoves(s, init, i, k);
        LooksEarlier(s, init, last, i, k, look);
        LooksEarlier(s, init, last, i, k, insert);
      } else if last.Looking? {
        look, insert := |init|, |init|;
      } else {
        look := TryingHasItsLook(s, init, i);
        insert := |init|;
        LooksEarlier(s, init, last, i, k, look);
      }
    }
  }

  // ------------------------------------------------------------------ every run can go on to the end

  predicate Over(p: Pass) {
    p.stopped || |p.outcomes| >= |p.files|
  }

  function MovesLeft(p: Pass): nat {
    if Over(p) then 0 else 2 * (|p.files| - |p.outcomes|) - if p.trying then 1 else 0
  }

  function AllMovesLeft(passes: seq<Pass>): nat {
    if passes == [] then 0 else MovesLeft(passes[0]) + AllMovesLeft(passes[1..])
  }

  lemma {:induction false} OneGoesOn(passes: seq<Pass>, i: nat, p: Pass)
    requires i < |passes| && MovesLeft(p) < MovesLeft(passes[i])
    ensures AllMovesLeft(passes[i := p]) < AllMovesLeft(passes)
  {
    if i == 0 {
      assert passes[i := p][1..] == passes[1..];
    } else {
      assert passes[i := p][1..] == passes[1..][i - 1 := p];
      OneGoesOn(passes[1..], i - 1, p);
    }
  }

  lemma GoingOnLeavesLess(s: State, m: Move)
    requires Enabled(s, m) && Sound(s, m.i) && !m.Stopping?
    ensures AllMovesLeft(Moved(s, m).passes) < AllMovesLeft(s.passes)
  {
    assert Moved(s, m).passes == s.passes[m.i := Moved(s, m).passes[m.i]];
    OneGoesOn(s.passes, m.i, Moved(s, m).passes[m.i]);
  }

  /** Wherever the passes stand in a run, it goes on to where each has settled every file of its share, or has stopped
      at one where a constraint broke. */
  lemma EveryRunCanFinish(s: State, moves: seq<Move>) returns (more: seq<Move>)
    requires Invariant(s) && Run(s, moves)
    ensures Run(s, moves + more) && forall m :: m in more ==> !m.Stopping?
    ensures forall p :: p in After(s, moves + more).passes ==> p.stopped || |p.outcomes| == |p.files|
    decreases AllMovesLeft(After(s, moves).passes)
  {
    hide Run, After, Enabled, Moved, Invariant, Sound, AllMovesLeft, MovesLeft;
    RunsKeepTheInvariant(s, moves);
    if i: nat :| i < |After(s, moves).passes| && !Over(After(s, moves).passes[i]) {
      PassesAreSound(After(s, moves), i);
      var m := GoingOn(s, moves, i);
      hide *;
      var rest := EveryRunCanFinish(s, moves + [m]);
      more := [m] + rest;
      assert moves + [m] + rest == moves + more;
    } else {
      more := [];
      assert moves + more == moves;
      forall p | p in After(s, moves).passes
        ensures p.stopped || |p.outcomes| == |p.files|
      {
        var i: nat :| i < |After(s, moves).passes| && After(s, moves).passes[i] == p;
        PassesAreSound(After(s, moves), i);
        assert Over(After(s, moves).passes[i]);
      }
    }
  }

  lemma PassesAreSound(s: State, i: nat)
    requires Invariant(s) && i < |s.passes|
    ensures Sound(s, i) && |s.passes[i].outcomes| <= |s.passes[i].files|
  {
    hide LandedThere;
  }

  lemma GoingOn(s: State, moves: seq<Move>, i: nat) returns (m: Move)
    requires Run(s, moves) && i < |After(s, moves).passes|
    requires !Over(After(s, moves).passes[i]) && Sound(After(s, moves), i)
    ensures Run(s, moves + [m]) && !m.Stopping?
    ensures AllMovesLeft(After(s, moves + [m]).passes) < AllMovesLeft(After(s, moves).passes)
  {
    var now := After(s, moves);
    m := UnfinishedPassesGoOn(now, i);
    assert (moves + [m])[..|moves|] == moves;
    hide Enabled, Moved, Sound, AllMovesLeft;
    assert After(s, moves + [m]) == Moved(now, m);
    GoingOnLeavesLess(now, m);
  }
}
