/** The undo line and the two columns of samples behind the morph strip (frontend/src/morph/morphHistory.ts). Weights
    are hundredths, so 0 to 100. */
module MorphHistories {
  import opened Options
  import opened Sorting

  type Hash = nat

  datatype End = First | Second

  const HELD_CAPACITY := 50
  const UNDO_DEPTH := 100

  datatype Snapshot = Snapshot(first: Option<Hash>, second: Option<Hash>, renderedWeight: Option<int>, weight: int) {
    function At(end: End): Option<Hash> {
      if end.First? then first else second
    }
  }

  datatype Held = Held(first: seq<Hash>, second: seq<Hash>)

  datatype History = History(held: Held, past: seq<Snapshot>, future: seq<Snapshot>)

  datatype Restored = Restored(history: History, snapshot: Snapshot)

  function WithArrival(column: seq<Hash>, hash: Option<Hash>): seq<Hash> {
    if hash.None? || hash.value in column then column
    else
      var longer := [hash.value] + column;
      if |longer| <= HELD_CAPACITY then longer else longer[..HELD_CAPACITY]
  }

  function Remembering(held: Held, pair: Snapshot): Held {
    Held(WithArrival(held.first, pair.first), WithArrival(held.second, pair.second))
  }

  function LastOf(line: seq<Snapshot>): seq<Snapshot> {
    if |line| <= UNDO_DEPTH then line else line[|line| - UNDO_DEPTH..]
  }

  function Recorded(history: History, prior: Snapshot, next: Snapshot): History {
    History(Remembering(history.held, next), LastOf(history.past + [prior]), [])
  }

  function Undone(history: History, current: Snapshot): Option<Restored> {
    if history.past == [] then None
    else
      var snapshot, behind := history.past[|history.past| - 1], history.past[..|history.past| - 1];
      Some(Restored(History(Remembering(history.held, snapshot), behind, history.future + [current]), snapshot))
  }

  function Redone(history: History, current: Snapshot): Option<Restored> {
    if history.future == [] then None
    else
      var snapshot, ahead := history.future[|history.future| - 1], history.future[..|history.future| - 1];
      Some(Restored(History(Remembering(history.held, snapshot), history.past + [current], ahead), snapshot))
  }

  function Forgotten(pair: Snapshot): Held {
    Remembering(Held([], []), pair)
  }

  // ------------------------------------------------------------------ the columns

  /** A column of distinct samples, no longer than its capacity, in which the end's sample stands. */
  ghost predicate ColumnHolds(column: seq<Hash>, hash: Option<Hash>) {
    Distinct(column) && |column| <= HELD_CAPACITY && (hash.Some? ==> hash.value in column)
  }

  ghost predicate ColumnsHold(held: Held, pair: Snapshot) {
    ColumnHolds(held.first, pair.first) && ColumnHolds(held.second, pair.second)
  }

  lemma ArrivalsKeepAColumn(column: seq<Hash>, before: Option<Hash>, hash: Option<Hash>)
    requires ColumnHolds(column, before)
    ensures ColumnHolds(WithArrival(column, hash), hash)
  {
    if hash.Some? && hash.value !in column {
      var longer := [hash.value] + column;
      assert forall j :: 0 <= j < |column| ==> longer[j + 1] == column[j];
      assert WithArrival(column, hash)[0] == hash.value;
    }
  }

  /** A new arrival goes on top of its column, above the latest 49; a sample that stands there already, or none, leaves
      the column as it is. */
  lemma ArrivalsGoOnTop(column: seq<Hash>, hash: Hash)
    requires |column| <= 50
    ensures WithArrival(column, None) == column && (hash in column ==> WithArrival(column, Some(hash)) == column)
    ensures hash !in column ==>
      var longer := WithArrival(column, Some(hash));
      && |longer| == (if |column| < 50 then |column| + 1 else 50) && longer[0] == hash && longer[1..] <= column
  {
    var longer := [hash] + column;
    assert longer[1..] == column;
  }

  /** Whatever pair comes next, remembering it keeps both columns and lets them hold it. */
  lemma RememberingKeepsTheColumns(held: Held, before: Snapshot, pair: Snapshot)
    requires ColumnsHold(held, before)
    ensures ColumnsHold(Remembering(held, pair), pair)
  {
    ArrivalsKeepAColumn(held.first, before.first, pair.first);
    ArrivalsKeepAColumn(held.second, before.second, pair.second);
  }

  // ------------------------------------------------------------------ the line

  function Reversed(line: seq<Snapshot>): (r: seq<Snapshot>)
    ensures |r| == |line|
  {
    if line == [] then [] else [line[|line| - 1]] + Reversed(line[..|line| - 1])
  }

  /** The whole line, oldest first: what lies behind the present, the present, and what was undone, nearest first. */
  function Timeline(history: History, current: Snapshot): (line: seq<Snapshot>)
    ensures |line| == |history.past| + 1 + |history.future|
    ensures line[|history.past|] == current
  {
    history.past + [current] + Reversed(history.future)
  }

  /** Undo moves one step back along a line it leaves as it is. */
  lemma UndoMovesTheCursorBack(history: History, current: Snapshot)
    requires history.past != []
    ensures var r := Undone(history, current);
      && r.Some? && Timeline(r.value.history, r.value.snapshot) == Timeline(history, current)
      && |r.value.history.past| == |history.past| - 1
  {
    var r := Undone(history, current).value;
    assert r.history.future[..|r.history.future| - 1] == history.future;
    assert r.history.past + [r.snapshot] == history.past;
  }

  /** Redo moves one step forward along it. */
  lemma RedoMovesTheCursorForward(history: History, current: Snapshot)
    requires history.future != []
    ensures var r := Redone(history, current);
      && r.Some? && Timeline(r.value.history, r.value.snapshot) == Timeline(history, current)
      && |r.value.history.past| == |history.past| + 1
  {
    var r := Redone(history, current).value;
    assert Reversed(history.future) == [r.snapshot] + Reversed(r.history.future);
  }

  /** A change cuts what lies ahead, goes on the line's end, and leaves at most a hundred snapshots behind it. */
  lemma AChangeCutsAndAppends(history: History, prior: Snapshot, next: Snapshot)
    ensures var h := Recorded(history, prior, next);
      Timeline(h, next) == LastOf(Timeline(history, prior)[..|history.past| + 1]) + [next] && h.future == []
  {
    assert Timeline(history, prior)[..|history.past| + 1] == history.past + [prior];
  }

  lemma ThePastStartsTheLine(history: History, current: Snapshot, m: nat)
    requires m <= |history.past|
    ensures Timeline(history, current)[..m] == history.past[..m]
  {
  }

  lemma {:induction false} ReversedAt(line: seq<Snapshot>, i: nat)
    requires i < |line|
    ensures Reversed(line)[i] == line[|line| - 1 - i]
  {
    if i > 0 {
      ReversedAt(line[..|line| - 1], i - 1);
    }
  }

  /** What a change leaves behind it: the snapshots that lay there and the one changed away from, the latest hundred of
      them. */
  lemma AtMostAHundredStayBehind(history: History, prior: Snapshot, next: Snapshot)
    requires |history.past| <= 100
    ensures var h := Recorded(history, prior, next);
      && h.past == (if |history.past| < 100 then history.past else history.past[1..]) + [prior] && h.future == []
      && h.held.first == WithArrival(history.held.first, next.first)
      && h.held.second == WithArrival(history.held.second, next.second)
  {
    assert |history.past| == 100 ==> (history.past + [prior])[1..] == history.past[1..] + [prior];
  }

  /** The line and the cursor tell both stacks and the present. */
  lemma TheLineTellsTheStacks(a: History, currentA: Snapshot, b: History, currentB: Snapshot)
    requires Timeline(a, currentA) == Timeline(b, currentB) && |a.past| == |b.past|
    ensures a.past == b.past && currentA == currentB && a.future == b.future
  {
    var line, n := Timeline(a, currentA), |a.past|;
    assert a.past == line[..n] && b.past == Timeline(b, currentB)[..n];
    assert Reversed(a.future) == line[n + 1..] && Reversed(b.future) == Timeline(b, currentB)[n + 1..];
    forall i | 0 <= i < |a.future|
      ensures a.future[i] == b.future[i]
    {
      ReversedAt(a.future, |a.future| - 1 - i);
      ReversedAt(b.future, |b.future| - 1 - i);
    }
  }
}

/** The store that drives the history (frontend/src/morph/morphStore.ts). */
module MorphStores {
  import opened Options
  import opened MorphHistories

  const WEIGHT_STEPS := 100
  const DEFAULT_WEIGHT := 50

  // ------------------------------------------------------------------ the weight's grid

  function Clamped(weight: real): real {
    if weight < 0.0 then 0.0 else if weight > 1.0 then 1.0 else weight
  }

  /** A weight in hundredths: held to the unit interval and rounded to the grid, a half upwards. */
  function SnapWeight(weight: real): (steps: int)
    ensures 0 <= steps <= 100
    ensures 0.0 <= weight <= 1.0 ==> steps as real - 0.5 <= weight * 100.0 < steps as real + 0.5
    ensures (weight <= 0.0 ==> steps == 0) && (weight >= 1.0 ==> steps == 100)
  {
    (Clamped(weight) * (WEIGHT_STEPS as real) + 0.5).Floor
  }

  function OnSlider(steps: int): real {
    (steps as real) / (WEIGHT_STEPS as real)
  }

  /** Mirroring a weight on the grid is exact. */
  lemma MirroredWeightsAreExact(steps: int)
    requires 0 <= steps <= WEIGHT_STEPS
    ensures SnapWeight(1.0 - OnSlider(steps)) == WEIGHT_STEPS - steps && SnapWeight(OnSlider(steps)) == steps
  {
  }

  // ------------------------------------------------------------------ the next pair

  function Other(end: End): End {
    if end.First? then Second else First
  }

  function PairOf(state: Snapshot, first: Option<Hash>, second: Option<Hash>, weight: int): Snapshot {
    if first == state.first && second == state.second then Snapshot(first, second, state.renderedWeight, weight)
    else Snapshot(first, second, if first.Some? && second.Some? then Some(weight) else None, weight)
  }

  function WithSampleAt(state: Snapshot, end: End, hash: Hash): Snapshot {
    if end.First? then PairOf(state, Some(hash), state.second, state.weight)
    else PairOf(state, state.first, Some(hash), state.weight)
  }

  function SwappedOf(state: Snapshot): Snapshot {
    PairOf(state, state.second, state.first, SnapWeight(1.0 - OnSlider(state.weight)))
  }

  // ------------------------------------------------------------------ the store as a value

  datatype State = State(present: Snapshot, selectedEnd: End, history: History)

  datatype Action =
    | SetEnd(end: End, hash: Hash)
    | Swap
    | SetWeight(weight: real)
    | MarkRendered
    | SelectEnd(end: End)
    | TakeSample(hash: Hash)
    | Undo
    | Redo
    | ForgetHeld

  function Initial(held: Held): State {
    State(Snapshot(None, None, None, DEFAULT_WEIGHT), First, History(held, [], []))
  }

  function Committed(s: State, next: Snapshot): State {
    if s.present == next then s else State(next, s.selectedEnd, Recorded(s.history, s.present, next))
  }

  function Resumed(s: State, restored: Option<Restored>): State {
    if restored.None? then s else State(restored.value.snapshot, s.selectedEnd, restored.value.history)
  }

  /** The pair an action commits, when it commits one. */
  function Chosen(s: State, action: Action): Option<Snapshot> {
    match action
    case SetEnd(end, hash) =>
      Some(if s.present.At(Other(end)) == Some(hash) then SwappedOf(s.present) else WithSampleAt(s.present, end, hash))
    case Swap => Some(SwappedOf(s.present))
    case TakeSample(hash) =>
      if s.present.first == Some(hash) || s.present.second == Some(hash) then None
      else Some(WithSampleAt(s.present, s.selectedEnd, hash))
    case _ => None
  }

  function After(s: State, action: Action): State {
    var chosen := Chosen(s, action);
    var next := if chosen.Some? then Committed(s, chosen.value) else s;
    match action
    case SetWeight(weight) => s.(present := s.present.(weight := SnapWeight(weight)))
    case MarkRendered => s.(present := s.present.(renderedWeight := Some(s.present.weight)))
    case SelectEnd(end) => s.(selectedEnd := end)
    case TakeSample(_) =>
      if chosen.Some? && s.present.At(Other(s.selectedEnd)) == None then next.(selectedEnd := Other(s.selectedEnd))
        else next
    case Undo => Resumed(s, Undone(s.history, s.present))
    case Redo => Resumed(s, Redone(s.history, s.present))
    case ForgetHeld => s.(history := s.history.(held := Forgotten(s.present)))
    case _ => next
  }

  function Run(s: State, actions: seq<Action>): State {
    if actions == [] then s else After(Run(s, actions[..|actions| - 1]), actions[|actions| - 1])
  }

  // ------------------------------------------------------------------ what every reachable state keeps

  predicate BothChosen(p: Snapshot) {
    p.first.Some? && p.second.Some?
  }

  /** The two ends hold different samples, the weight lies on the grid, and a whole pair has a point drawn. */
  predicate SoundSnapshot(p: Snapshot) {
    && (p.first.Some? ==> p.first != p.second)
    && 0 <= p.weight <= WEIGHT_STEPS
    && (BothChosen(p) ==> p.renderedWeight.Some?)
  }

  ghost predicate AllSound(line: seq<Snapshot>) {
    forall i :: 0 <= i < |line| ==> SoundSnapshot(line[i])
  }

  ghost predicate Invariant(s: State) {
    && SoundSnapshot(s.present) && AllSound(s.history.past) && AllSound(s.history.future)
    && ColumnsHold(s.history.held, s.present)
    && |s.history.past| + |s.history.future| <= UNDO_DEPTH
  }

  lemma ChosenPairsAreSound(s: State, action: Action)
    requires SoundSnapshot(s.present) && Chosen(s, action).Some?
    ensures SoundSnapshot(Chosen(s, action).value)
  {
  }

  lemma CommitsKeepTheInvariant(s: State, next: Snapshot)
    requires Invariant(s) && SoundSnapshot(next)
    ensures Invariant(Committed(s, next))
  {
    RememberingKeepsTheColumns(s.history.held, s.present, next);
  }

  lemma RestoringKeepsTheInvariant(s: State, action: Action)
    requires Invariant(s) && (action.Undo? || action.Redo?)
    ensures Invariant(After(s, action))
  {
    if action.Undo? && s.history.past != [] {
      RememberingKeepsTheColumns(s.history.held, s.present, s.history.past[|s.history.past| - 1]);
    } else if action.Redo? && s.history.future != [] {
      RememberingKeepsTheColumns(s.history.held, s.present, s.history.future[|s.history.future| - 1]);
    }
  }

  lemma ActionsKeepTheInvariant(s: State, action: Action)
    requires Invariant(s)
    ensures Invariant(After(s, action))
  {
    var chosen := Chosen(s, action);
    if chosen.Some? {
      ChosenPairsAreSound(s, action);
      CommitsKeepTheInvariant(s, chosen.value);
    } else if action.Undo? || action.Redo? {
      RestoringKeepsTheInvariant(s, action);
    } else if action.ForgetHeld? {
      RememberingKeepsTheColumns(Held([], []), Snapshot(None, None, None, 0), s.present);
    }
  }

  /** From any saved columns that are sound, every action of a visit: at most a hundred snapshots in both stacks
      together, so redo never has to cut; sound columns that hold the ends' samples; and never one sample at both ends,
      now or in any snapshot. */
  lemma {:induction false} RunsKeepTheInvariant(held: Held, actions: seq<Action>)
    requires ColumnHolds(held.first, None) && ColumnHolds(held.second, None)
    ensures Invariant(Run(Initial(held), actions))
  {
    if actions != [] {
      RunsKeepTheInvariant(held, actions[..|actions| - 1]);
      ActionsKeepTheInvariant(Run(Initial(held), actions[..|actions| - 1]), actions[|actions| - 1]);
    }
  }

  // ------------------------------------------------------------------ what an action does to the pair

  /** Where the ends change, a whole pair is drawn at the slider's point and any other at none; elsewhere the point
      drawn stays. */
  ghost predicate DrawnAnew(before: Snapshot, after: Snapshot) {
    after.renderedWeight ==
      if after.first == before.first && after.second == before.second then before.renderedWeight
      else if after.first == None || after.second == None then None
      else Some(after.weight)
  }

  /** A change is recorded, and the selection and what is recorded stay where nothing changed. */
  ghost predicate RecordedAnew(before: State, after: State) {
    after.history == if after.present == before.present then before.history
      else Recorded(before.history, before.present, after.present)
  }

  /** The end named takes the sample; the other end, where it held that sample, takes what the first one held, and the
      slider is mirrored. */
  lemma AnEndTakesItsSample(s: State, end: End, hash: Hash)
    requires Invariant(s)
    ensures var next, p := After(s, SetEnd(end, hash)), s.present;
      && next.present.first ==
         (if end == First then Some(hash) else if p.first == Some(hash) then p.second else p.first)
      && next.present.second ==
         (if end == Second then Some(hash) else if p.second == Some(hash) then p.first else p.second)
      && next.present.weight ==
         (if (if end == First then p.second else p.first) == Some(hash) then 100 - p.weight else p.weight)
      && DrawnAnew(p, next.present) && RecordedAnew(s, next) && next.selectedEnd == s.selectedEnd
  {
    MirroredWeightsAreExact(s.present.weight);
  }

  lemma TheEndsTrade(s: State)
    requires Invariant(s)
    ensures var next, p := After(s, Swap), s.present;
      && next.present.first == p.second && next.present.second == p.first && next.present.weight == 100 - p.weight
      && DrawnAnew(p, next.present) && RecordedAnew(s, next) && next.selectedEnd == s.selectedEnd
  {
    MirroredWeightsAreExact(s.present.weight);
  }

  /** A sample at neither end goes to the selected one, and the selection moves on to the other while that is empty; a
      sample at an end changes nothing. */
  lemma TheSelectedEndTakesASample(s: State, hash: Hash)
    ensures var next, p := After(s, TakeSample(hash)), s.present;
      if p.first == Some(hash) || p.second == Some(hash) then next == s
      else if s.selectedEnd == First then
        && next.present.first == Some(hash) && next.present.second == p.second && next.present.weight == p.weight
        && next.selectedEnd == (if p.second == None then Second else First)
        && DrawnAnew(p, next.present) && RecordedAnew(s, next)
      else
        && next.present.first == p.first && next.present.second == Some(hash) && next.present.weight == p.weight
        && next.selectedEnd == (if p.first == None then First else Second)
        && DrawnAnew(p, next.present) && RecordedAnew(s, next)
  {
  }

  /** The slider, the mark and the selection move nothing else, and forgetting the columns moves neither pair nor
      line. */
  lemma OtherActionsMoveOneThing(s: State, weight: real, end: End)
    ensures After(s, SetWeight(weight)) ==
      s.(present := Snapshot(s.present.first, s.present.second, s.present.renderedWeight, SnapWeight(weight)))
    ensures After(s, MarkRendered) ==
      s.(present := Snapshot(s.present.first, s.present.second, Some(s.present.weight), s.present.weight))
    ensures After(s, SelectEnd(end)) == State(s.present, end, s.history)
    ensures var next := After(s, ForgetHeld);
      && next.present == s.present && next.selectedEnd == s.selectedEnd
      && next.history.past == s.history.past && next.history.future == s.history.future
      && next.history.held.first == (if s.present.first.Some? then [s.present.first.value] else [])
      && next.history.held.second == (if s.present.second.Some? then [s.present.second.value] else [])
  {
  }

  // ------------------------------------------------------------------ swapping

  /** Two swaps restore the ends and the weight, and draw a whole pair at the slider's point. */
  lemma SwappingTwiceRestores(p: Snapshot)
    requires SoundSnapshot(p)
    ensures var twice := SwappedOf(SwappedOf(p));
      && twice.first == p.first && twice.second == p.second && twice.weight == p.weight
      && (BothChosen(p) ==> twice.renderedWeight == Some(p.weight))
  {
    MirroredWeightsAreExact(p.weight);
    MirroredWeightsAreExact(WEIGHT_STEPS - p.weight);
  }

  // ------------------------------------------------------------------ nothing drawn while an end is missing

  predicate DrawnWhole(p: Snapshot) {
    p.renderedWeight.Some? ==> BothChosen(p)
  }

  ghost predicate AllDrawnWhole(s: State) {
    && DrawnWhole(s.present)
    && (forall i :: 0 <= i < |s.history.past| ==> DrawnWhole(s.history.past[i]))
    && (forall i :: 0 <= i < |s.history.future| ==> DrawnWhole(s.history.future[i]))
  }

  predicate MarksAWholePair(s: State, action: Action) {
    action.MarkRendered? ==> BothChosen(s.present)
  }

  lemma ActionsDrawWholePairs(s: State, action: Action)
    requires AllDrawnWhole(s) && MarksAWholePair(s, action)
    ensures AllDrawnWhole(After(s, action))
  {
    hide SnapWeight, OnSlider, Remembering;
    match action
    case SetEnd(_, _) =>
    case Swap =>
    case SetWeight(_) =>
    case MarkRendered =>
    case SelectEnd(_) =>
    case TakeSample(_) =>
    case Undo =>
    case Redo =>
    case ForgetHeld =>
  }

  ghost predicate EveryMarkIsWhole(s: State, actions: seq<Action>) {
    forall i :: 0 <= i < |actions| ==> MarksAWholePair(Run(s, actions[..i]), actions[i])
  }

  ghost predicate AlwaysDrawnWhole(s: State, actions: seq<Action>) {
    forall i :: 0 <= i <= |actions| ==> DrawnWhole(Run(s, actions[..i]).present)
  }

  lemma {:induction false} WholeMarksDrawWholePairs(s: State, actions: seq<Action>, i: nat)
    requires AllDrawnWhole(s) && EveryMarkIsWhole(s, actions) && i <= |actions|
    ensures AllDrawnWhole(Run(s, actions[..i]))
  {
    if i > 0 {
      WholeMarksDrawWholePairs(s, actions, i - 1);
      assert actions[..i][..i - 1] == actions[..i - 1];
      ActionsDrawWholePairs(Run(s, actions[..i - 1]), actions[i - 1]);
    }
  }

  /** Nothing is drawn while an end is missing, at any moment of a visit, exactly when every mark falls while both ends
      are chosen. */
  lemma DrawnWholeExactlyWhenMarkedWhole(held: Held, actions: seq<Action>)
    ensures AlwaysDrawnWhole(Initial(held), actions) <==> EveryMarkIsWhole(Initial(held), actions)
  {
    var s := Initial(held);
    if EveryMarkIsWhole(s, actions) {
      forall i | 0 <= i <= |actions|
        ensures DrawnWhole(Run(s, actions[..i]).present)
      {
        WholeMarksDrawWholePairs(s, actions, i);
      }
    }
    if AlwaysDrawnWhole(s, actions) {
      forall i | 0 <= i < |actions|
        ensures MarksAWholePair(Run(s, actions[..i]), actions[i])
      {
        assert actions[..i + 1][..i] == actions[..i];
        assert DrawnWhole(Run(s, actions[..i + 1]).present);
      }
    }
  }

  /** A mark on a fresh visit draws a point with no end chosen. */
  lemma AMarkMayDrawNothing()
    ensures var p := After(Initial(Held([], [])), MarkRendered).present;
      p.first.None? && p.renderedWeight == Some(DEFAULT_WEIGHT)
  {
  }

  // ------------------------------------------------------------------ undoing a run of changes

  predicate TakesEffect(s: State, action: Action) {
    Chosen(s, action).Some? && Chosen(s, action).value != s.present
  }

  predicate Forward(action: Action) {
    !action.Undo? && !action.Redo?
  }

  /** The pairs a run of actions changed away from, in order. */
  function Priors(s: State, actions: seq<Action>): seq<Snapshot> {
    if actions == [] then []
    else
      var init := actions[..|actions| - 1];
      var before := Run(s, init);
      Priors(s, init) + if TakesEffect(before, actions[|actions| - 1]) then [before.present] else []
  }

  lemma LastOfLast(line: seq<Snapshot>, p: Snapshot)
    ensures LastOf(LastOf(line) + [p]) == LastOf(line + [p])
  {
  }

  lemma OneStepForward(s: State, action: Action)
    requires Forward(action)
    ensures After(s, action).history.past == if TakesEffect(s, action) then LastOf(s.history.past + [s.present])
      else s.history.past
    ensures After(s, action).history.future == if TakesEffect(s, action) then [] else s.history.future
  {
    hide SnapWeight, OnSlider, LastOf, Remembering, SwappedOf, WithSampleAt;
  }

  lemma {:induction false} ThePastIsWhatWasChanged(s: State, actions: seq<Action>)
    requires |s.history.past| <= UNDO_DEPTH && forall i :: 0 <= i < |actions| ==> Forward(actions[i])
    ensures Run(s, actions).history.past == LastOf(s.history.past + Priors(s, actions))
    ensures Run(s, actions).history.future == if Priors(s, actions) == [] then s.history.future else []
  {
    if actions == [] {
      assert s.history.past + [] == s.history.past;
    } else {
      var init, last := actions[..|actions| - 1], actions[|actions| - 1];
      var before, past := Run(s, init), s.history.past;
      assert Run(s, actions) == After(before, last);
      assert Priors(s, actions) == Priors(s, init) + if TakesEffect(before, last) then [before.present] else [];
      ThePastIsWhatWasChanged(s, init);
      OneStepForward(before, last);
      hide *;
      if TakesEffect(before, last) {
        LastOfLast(past + Priors(s, init), before.present);
        assert past + Priors(s, actions) == (past + Priors(s, init)) + [before.present];
      } else {
        assert Priors(s, actions) == Priors(s, init);
      }
    }
  }

  function Repeated(action: Action, n: nat): (actions: seq<Action>)
    ensures |actions| == n && forall i :: 0 <= i < n ==> actions[i] == action
  {
    seq(n, _ => action)
  }

  lemma OneMoreRepeated(s: State, action: Action, n: nat)
    requires n > 0
    ensures Run(s, Repeated(action, n)) == After(Run(s, Repeated(action, n - 1)), action)
  {
    assert Repeated(action, n)[..n - 1] == Repeated(action, n - 1);
  }

  lemma {:induction false} UndosMoveTheCursorBack(s: State, n: nat)
    requires n <= |s.history.past|
    ensures var u := Run(s, Repeated(Undo, n));
      Timeline(u.history, u.present) == Timeline(s.history, s.present) && |u.history.past| == |s.history.past| - n
  {
    if n > 0 {
      UndosMoveTheCursorBack(s, n - 1);
      OneMoreRepeated(s, Undo, n);
      var before := Run(s, Repeated(Undo, n - 1));
      hide Run, Undone, Timeline;
      UndoMovesTheCursorBack(before.history, before.present);
    }
  }

  lemma {:induction false} RedosMoveTheCursorForward(s: State, n: nat)
    requires n <= |s.history.future|
    ensures var r := Run(s, Repeated(Redo, n));
      Timeline(r.history, r.present) == Timeline(s.history, s.present) && |r.history.past| == |s.history.past| + n
  {
    if n > 0 {
      RedosMoveTheCursorForward(s, n - 1);
      OneMoreRepeated(s, Redo, n);
      var before := Run(s, Repeated(Redo, n - 1));
      hide Run, Redone, Timeline;
      RedoMovesTheCursorForward(before.history, before.present);
    }
  }

  /** The state a hundred changes or fewer led to, undone k at a time: what undo shows is the pair the change was made
      from. */
  lemma UndosShowThePriors(s: State, actions: seq<Action>, k: nat)
    requires |s.history.past| <= UNDO_DEPTH && forall i :: 0 <= i < |actions| ==> Forward(actions[i])
    requires 0 < k <= |Priors(s, actions)| <= UNDO_DEPTH
    ensures Run(Run(s, actions), Repeated(Undo, k)).present == Priors(s, actions)[|Priors(s, actions)| - k]
  {
    var t, priors := Run(s, actions), Priors(s, actions);
    ThePastIsWhatWasChanged(s, actions);
    LastOfEndsAlike(s.history.past, priors, k);
    UndosMoveTheCursorBack(t, k);
    ShownBefore(t, Run(t, Repeated(Undo, k)), k);
  }

  lemma ShownBefore(t: State, u: State, k: nat)
    requires 0 < k <= |t.history.past| == |u.history.past| + k
      && Timeline(u.history, u.present) == Timeline(t.history, t.present)
    ensures u.present == t.history.past[|t.history.past| - k]
  {
    var at := |t.history.past| - k;
    ThePastStartsTheLine(t.history, t.present, at + 1);
    assert Timeline(t.history, t.present)[..at + 1][at] == t.history.past[..at + 1][at];
  }

  lemma {:induction false} TheFirstPriorIsTheStart(s: State, actions: seq<Action>)
    requires actions != [] && TakesEffect(s, actions[0])
    ensures Priors(s, actions) != [] && Priors(s, actions)[0] == s.present
  {
    if |actions| > 1 {
      TheFirstPriorIsTheStart(s, actions[..|actions| - 1]);
    } else {
      assert actions[..0] == [];
    }
  }

  /** A run that starts with a change, of at most a hundred changes, undone as often as it changed the pair, is back at
      the pair it started from, with its drawn point and its weight. */
  lemma UndosReturnToTheStart(s: State, actions: seq<Action>)
    requires |s.history.past| <= UNDO_DEPTH && forall i :: 0 <= i < |actions| ==> Forward(actions[i])
    requires actions != [] && TakesEffect(s, actions[0]) && |Priors(s, actions)| <= UNDO_DEPTH
    ensures Run(Run(s, actions), Repeated(Undo, |Priors(s, actions)|)).present == s.present
  {
    hide *;
    TheFirstPriorIsTheStart(s, actions);
    UndosShowThePriors(s, actions, |Priors(s, actions)|);
  }

  lemma LastOfEndsAlike(past: seq<Snapshot>, priors: seq<Snapshot>, k: nat)
    requires 0 < k <= |priors| <= UNDO_DEPTH
    ensures var kept := LastOf(past + priors); k <= |kept| && kept[|kept| - k] == priors[|priors| - k]
  {
  }

  lemma UndosRestoreThePast(s: State, actions: seq<Action>)
    requires |s.history.past| <= UNDO_DEPTH && forall i :: 0 <= i < |actions| ==> Forward(actions[i])
    requires |Priors(s, actions)| <= UNDO_DEPTH
    ensures var n := |Priors(s, actions)|;
      var past := Run(Run(s, actions), Repeated(Undo, n)).history.past;
      |past| <= |s.history.past| && past == s.history.past[|s.history.past| - |past|..]
      && |past| == if n + |s.history.past| <= UNDO_DEPTH then |s.history.past| else UNDO_DEPTH - n
  {
    var t, priors := Run(s, actions), Priors(s, actions);
    ThePastIsWhatWasChanged(s, actions);
    UndosMoveTheCursorBack(t, |priors|);
    var u := Run(t, Repeated(Undo, |priors|));
    ThePastBefore(s.history.past, priors, t, u);
  }

  lemma ThePastBefore(past: seq<Snapshot>, priors: seq<Snapshot>, t: State, u: State)
    requires |past| <= UNDO_DEPTH && |priors| <= UNDO_DEPTH && t.history.past == LastOf(past + priors)
    requires Timeline(u.history, u.present) == Timeline(t.history, t.present)
      && |u.history.past| == |t.history.past| - |priors|
    ensures |u.history.past| == (if |priors| + |past| <= UNDO_DEPTH then |past| else UNDO_DEPTH - |priors|) <= |past|
    ensures u.history.past == past[|past| - |u.history.past|..]
  {
    var m, line := |u.history.past|, past + priors;
    ThePastStartsTheLine(u.history, u.present, m);
    ThePastStartsTheLine(t.history, t.present, m);
    assert u.history.past[..m] == u.history.past;
    assert t.history.past == line[|line| - |t.history.past|..];
    hide *;
    var from := |past| - m;
    forall i | 0 <= i < m
      ensures u.history.past[i] == past[from + i]
    {
      assert t.history.past[i] == line[from + i];
    }
  }

  /** Undone as many times as it changed and redone as often, a run of a hundred changes or fewer comes back: pair, past
      and future. In between, the past is what it was before the run, less the oldest the run pushed off the line. */
  lemma RedosRestoreTheRun(s: State, actions: seq<Action>)
    requires |s.history.past| <= UNDO_DEPTH && forall i :: 0 <= i < |actions| ==> Forward(actions[i])
    requires |Priors(s, actions)| <= UNDO_DEPTH
    ensures var t, n := Run(s, actions), |Priors(s, actions)|;
      var u := Run(t, Repeated(Undo, n));
      var r := Run(u, Repeated(Redo, n));
      && |u.history.past| <= |s.history.past| && u.history.past == s.history.past[|s.history.past| - |u.history.past|..]
      && (n + |s.history.past| <= UNDO_DEPTH ==> u.history.past == s.history.past)
      && r.present == t.present && r.history.past == t.history.past && r.history.future == t.history.future
  {
    var t, n := Run(s, actions), |Priors(s, actions)|;
    UndosRestoreThePast(s, actions);
    ThePastIsWhatWasChanged(s, actions);
    UndosMoveTheCursorBack(t, n);
    var u := Run(t, Repeated(Undo, n));
    hide Run, Priors, Repeated;
    StacksAddUp(u, t);
    RedosMoveTheCursorForward(u, n);
    var r := Run(u, Repeated(Redo, n));
    TheLineTellsTheStacks(r.history, r.present, t.history, t.present);
  }

  lemma StacksAddUp(a: State, b: State)
    requires Timeline(a.history, a.present) == Timeline(b.history, b.present)
    ensures |a.history.past| + |a.history.future| == |b.history.past| + |b.history.future|
  {
  }

  /** A redo after an undo restores the pair and both stacks, and the columns exactly when they still held the pair
      undone to. */
  lemma RedoAfterUndo(s: State)
    requires Invariant(s) && s.history.past != []
    ensures var r := After(After(s, Undo), Redo);
      var shown := s.history.past[|s.history.past| - 1];
      && r.present == s.present && r.history.past == s.history.past && r.history.future == s.history.future
      && (r.history.held == s.history.held <==>
           && (shown.first.Some? ==> shown.first.value in s.history.held.first)
           && (shown.second.Some? ==> shown.second.value in s.history.held.second))
  {
    var shown, held := s.history.past[|s.history.past| - 1], s.history.held;
    ColumnsComeBack(held.first, shown.first, s.present.first);
    ColumnsComeBack(held.second, shown.second, s.present.second);
  }

  lemma ColumnsComeBack(column: seq<Hash>, shown: Option<Hash>, present: Option<Hash>)
    requires ColumnHolds(column, present)
    ensures WithArrival(WithArrival(column, shown), present) == column <==> (shown.Some? ==> shown.value in column)
  {
    if shown.Some? && shown.value !in column {
      var once := WithArrival(column, shown);
      assert once[0] == shown.value;
      var twice := WithArrival(once, present);
      if twice != once {
        assert twice[1] == once[0];
      }
    }
  }

  // ------------------------------------------------------------------ the store as an object

  /** The state the strip shares, with the columns as they are saved for the next visit. */
  class MorphStore {
    var first: Option<Hash>
    var second: Option<Hash>
    var renderedWeight: Option<int>
    var weight: int
    var selectedEnd: End
    var held: Held
    var past: seq<Snapshot>
    var future: seq<Snapshot>
    var saved: Held

    function Present(): Snapshot
      reads this
    {
      Snapshot(first, second, renderedWeight, weight)
    }

    function Value(): State
      reads this
    {
      State(Present(), selectedEnd, History(held, past, future))
    }

    ghost predicate Valid()
      reads this
    {
      Invariant(Value()) && saved == held
    }

    constructor (savedHeld: Held)
      requires ColumnHolds(savedHeld.first, None) && ColumnHolds(savedHeld.second, None)
      ensures Valid() && Value() == Initial(savedHeld)
      ensures first == None && second == None && renderedWeight == None && weight == 50 && selectedEnd == First
      ensures held == savedHeld && past == [] && future == []
    {
      first, second, renderedWeight, weight := None, None, None, DEFAULT_WEIGHT;
      selectedEnd, held, past, future, saved := First, savedHeld, [], [], savedHeld;
    }

    method Commit(next: Snapshot)
      requires Valid() && SoundSnapshot(next)
      modifies this
      ensures Valid() && Value() == Committed(old(Value()), next)
    {
      CommitsKeepTheInvariant(Value(), next);
      var prior := Present();
      if prior == next { return; }
      var history := Recorded(History(held, past, future), prior, next);
      Set(next, history);
    }

    method Restore(restored: Option<Restored>)
      requires Valid() && (restored.Some? ==> Invariant(Resumed(Value(), restored)))
      modifies this
      ensures Valid() && Value() == Resumed(old(Value()), restored)
    {
      if restored.None? { return; }
      Set(restored.value.snapshot, restored.value.history);
    }

    /** The fields set together, the columns saved when they changed. */
    method Set(next: Snapshot, history: History)
      requires saved == held
      modifies this
      ensures Value() == State(next, old(selectedEnd), history) && saved == held
    {
      if history.held != held { saved := history.held; }
      first, second, renderedWeight, weight := next.first, next.second, next.renderedWeight, next.weight;
      held, past, future := history.held, history.past, history.future;
    }

    method SetEnd(end: End, hash: Hash)
      requires Valid()
      modifies this
      ensures Valid() && Value() == After(old(Value()), Action.SetEnd(end, hash))
    {
      ChosenPairsAreSound(Value(), Action.SetEnd(end, hash));
      Commit(if Present().At(Other(end)) == Some(hash) then SwappedOf(Present())
        else WithSampleAt(Present(), end, hash));
    }

    method Swap()
      requires Valid()
      modifies this
      ensures Valid() && Value() == After(old(Value()), Action.Swap)
    {
      ChosenPairsAreSound(Value(), Action.Swap);
      Commit(SwappedOf(Present()));
    }

    method SetWeight(point: real)
      requires Valid()
      modifies this
      ensures Valid() && Value() == After(old(Value()), Action.SetWeight(point))
    {
      weight := SnapWeight(point);
    }

    method MarkRendered()
      requires Valid()
      modifies this
      ensures Valid() && Value() == After(old(Value()), Action.MarkRendered)
    {
      renderedWeight := Some(weight);
    }

    method SelectEnd(end: End)
      requires Valid()
      modifies this
      ensures Valid() && Value() == After(old(Value()), Action.SelectEnd(end))
    {
      selectedEnd := end;
    }

    method TakeSample(hash: Hash)
      requires Valid()
      modifies this
      ensures Valid() && Value() == After(old(Value()), Action.TakeSample(hash))
    {
      if first == Some(hash) || second == Some(hash) { return; }
      ChosenPairsAreSound(Value(), Action.TakeSample(hash));
      var end, other := selectedEnd, Present().At(Other(selectedEnd));
      Commit(WithSampleAt(Present(), end, hash));
      if other == None { selectedEnd := Other(end); }
    }

    method Undo()
      requires Valid()
      modifies this
      ensures Valid() && Value() == After(old(Value()), Action.Undo)
    {
      RestoringKeepsTheInvariant(Value(), Action.Undo);
      Restore(Undone(History(held, past, future), Present()));
    }

    method Redo()
      requires Valid()
      modifies this
      ensures Valid() && Value() == After(old(Value()), Action.Redo)
    {
      RestoringKeepsTheInvariant(Value(), Action.Redo);
      Restore(Redone(History(held, past, future), Present()));
    }

    method ForgetHeld()
      requires Valid()
      modifies this
      ensures Valid() && Value() == After(old(Value()), Action.ForgetHeld)
    {
      ActionsKeepTheInvariant(Value(), Action.ForgetHeld);
      var emptied := Forgotten(Present());
      if emptied != held { saved := emptied; }
      held := emptied;
    }
  }
}
