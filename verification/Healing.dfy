/**
 When retention gets past the hole that a lost tail leaves. One call deletes at
 most `MAX_PRUNE` numbers and must end at a record, so that some holes are too
 wide, whatever the clock, the period and the records that follow.
 */
module Healing {
  import opened Prelude
  import opened Event
  import opened Chain
  import opened StoreSpec
  import opened StoreRuns
  import opened LostTail
  import Retention

  // ----- one call after the other -----

  /** No row is dated after `now`. */
  predicate DatedUpTo(rows: seq<Row>, now: Time) {
    forall r :: r in rows ==> r.columns.ts <= TsColumn(now)
  }

  /** Rows numbered from `first` on, each dated a microsecond after the one
      before. */
  ghost predicate Even(rows: seq<Row>, first: int) {
    forall i :: 0 <= i < |rows| ==> rows[i].seqNo == first + i && rows[i].columns.ts == first + i - 1
  }

  lemma HoledAscends(enc: Encoding, st: State, history: seq<Row>, front: seq<Row>, g: int)
    requires HoledAt(enc, st, history, front, g)
    ensures Ascending(st.rows) && (front != [] ==> Last(front).seqNo <= g - 2)
  {
    TailFrom(enc, history, g);
    assert front != [] ==> Last(front) in front;
    forall i, j | 0 <= i < j < |st.rows| ensures st.rows[i].seqNo < st.rows[j].seqNo {
      assert i < |front| ==> front[i] in front;
    }
  }

  lemma PrunedIsDated(enc: Encoding, st: State, cut: int, hash: string, now: Time)
    requires Usable(st) && DatedUpTo(st.rows, now)
    ensures DatedUpTo(PruneAt(enc, st, cut, hash, now).rows, now)
  {
    RowsAfterIsTail(st.rows, cut);
    var kept := RowsAfter(st.rows, cut);
    forall r | r in kept ensures r in st.rows {
    }
  }

  lemma PrunesAt(enc: Encoding, st: State, now: Time, cutoff: Time, cut: int, hash: string)
    requires PruneCut(st.rows, now, cutoff) == Some(cut) && HashAt(st.rows, cut) == Some(hash)
    ensures var step := Prune(now, cutoff, now, true);
      && Next(enc, st, step) == PruneAt(enc, st, cut, hash, now)
      && Written(enc, st, step) == PruneRecord(enc, st, cut, hash, now)
  {
  }

  /** A call that cuts at the row numbered `cut`, before the hole. */
  lemma CutsAtRow(enc: Encoding, st: State, history: seq<Row>, front: seq<Row>, g: int,
                  now: Time, cutoff: Time, n: nat)
    requires enc.Valid() && HoledAt(enc, st, history, front, g) && DatedUpTo(st.rows, now)
    requires 0 < n <= |front| && PruneCut(st.rows, now, cutoff) == Some(front[n - 1].seqNo)
    ensures var step := Prune(now, cutoff, now, true);
      && HoledAt(enc, Next(enc, st, step), history + Written(enc, st, step), front[n..], g)
      && DatedUpTo(Next(enc, st, step).rows, now)
  {
    HoledAscends(enc, st, history, front, g);
    HoledFacts(enc, st, history, front, g);
    assert st.rows[n - 1] == front[n - 1] && front[n - 1] in front;
    var cut, hash := front[n - 1].seqNo, front[n - 1].hash;
    HashAtKey(st.rows, n - 1);
    RowsAfterSplit(front, n, cut);
    PrunesAt(enc, st, now, cutoff, cut, hash);
    CutBeforeHole(enc, st, history, front, g, cut, hash, now);
    PrunedIsDated(enc, st, cut, hash, now);
  }

  /** With the cutoff at the second row, a call deletes the first one. */
  lemma DropsFirst(enc: Encoding, st: State, history: seq<Row>, front: seq<Row>, first: int, g: int, now: Time)
    returns (step: Step, after: State, past: seq<Row>)
    requires enc.Valid() && HoledAt(enc, st, history, front, g) && DatedUpTo(st.rows, now)
    requires |front| >= 2 && Even(front, first)
    ensures Clean(step) && after == Next(enc, st, step)
    ensures HoledAt(enc, after, past, front[1..], g) && DatedUpTo(after.rows, now)
  {
    var cutoff := front[1].columns.ts * MICROSECOND;
    step := Prune(now, cutoff, now, true);
    FirstCut(enc, st, history, front, first, g, now, cutoff);
    CutsAtRow(enc, st, history, front, g, now, cutoff, 1);
    after, past := Next(enc, st, step), history + Written(enc, st, step);
  }

  lemma FirstCut(enc: Encoding, st: State, history: seq<Row>, front: seq<Row>, first: int, g: int, now: Time,
                 cutoff: Time)
    requires HoledAt(enc, st, history, front, g) && DatedUpTo(st.rows, now)
    requires |front| >= 2 && Even(front, first) && TsColumn(cutoff) == front[1].columns.ts
    ensures PruneCut(st.rows, now, cutoff) == Some(front[0].seqNo)
  {
    HoledAscends(enc, st, history, front, g);
    assert st.rows[0] == front[0] && st.rows[1] == front[1];
    CutOfFirst(st.rows, now, cutoff);
  }

  lemma CutOfFirst(rows: seq<Row>, now: Time, cutoff: Time)
    requires |rows| >= 2 && Ascending(rows) && DatedUpTo(rows, now)
    requires rows[1].seqNo == rows[0].seqNo + 1 && rows[0].columns.ts < rows[1].columns.ts == TsColumn(cutoff)
    ensures PruneCut(rows, now, cutoff) == Some(rows[0].seqNo)
  {
    assert rows[1] in rows && Last(rows) in rows;
    SecondIsKept(rows, cutoff);
  }

  lemma SecondIsKept(rows: seq<Row>, cutoff: Time)
    requires |rows| >= 2 && Ascending(rows)
    requires rows[0].columns.ts < TsColumn(cutoff) <= rows[1].columns.ts
    ensures FirstKept(rows, cutoff) == Some(rows[1].seqNo)
  {
    FirstKeptMeaning(rows, cutoff);
    assert rows[1] in rows;
    var r :| r in rows && r.seqNo == FirstKept(rows, cutoff).value && r.columns.ts >= TsColumn(cutoff);
    var k :| 0 <= k < |rows| && rows[k] == r;
    assert k > 1 ==> rows[1].seqNo < rows[k].seqNo;
  }

  /** Some clean step leads on from a state that is `j` steps along. */
  ghost predicate CanStep(enc: Encoding, along: (State, seq<Row>, int) -> bool, st: State, j: int) {
    exists step, past :: LeadsOn(enc, along, st, j, step, past)
  }

  ghost predicate LeadsOn(enc: Encoding, along: (State, seq<Row>, int) -> bool, st: State, j: int, step: Step,
                          past: seq<Row>)
  {
    Clean(step) && along(Next(enc, st, step), past, j + 1)
  }

  /** If there is always a next step, there is a run. */
  lemma {:induction false} StepByStep(enc: Encoding, along: (State, seq<Row>, int) -> bool, st: State,
                                      history: seq<Row>, j: nat, n: nat)
    returns (steps: seq<Step>, after: State, past: seq<Row>)
    requires j <= n && along(st, history, j)
    requires forall s, p, i: nat :: along(s, p, i) && i < n ==> CanStep(enc, along, s, i)
    ensures CleanRun(steps) && after == Run(enc, st, steps) && along(after, past, n)
    decreases n - j
  {
    if j == n {
      steps, after, past := [], st, history;
    } else {
      assert CanStep(enc, along, st, j);
      var step, next :| LeadsOn(enc, along, st, j, step, next);
      var rest;
      rest, after, past := StepByStep(enc, along, Next(enc, st, step), next, j + 1, n);
      RunCons(enc, st, step, rest);
      steps := [step] + rest;
    }
  }

  ghost predicate Behind(enc: Encoding, st: State, history: seq<Row>, front: seq<Row>, g: int, now: Time, j: int) {
    0 <= j <= |front| && HoledAt(enc, st, history, front[j..], g) && DatedUpTo(st.rows, now)
  }

  ghost function Along(enc: Encoding, front: seq<Row>, g: int, now: Time): (State, seq<Row>, int) -> bool {
    (s: State, p: seq<Row>, j: int) => Behind(enc, s, p, front, g, now, j)
  }

  lemma AlwaysCanDrop(enc: Encoding, front: seq<Row>, first: int, g: int, now: Time, n: nat)
    requires enc.Valid() && Even(front, first) && n < |front|
    ensures var along := Along(enc, front, g, now);
      forall s, p, j: nat :: along(s, p, j) && j < n ==> CanStep(enc, along, s, j)
  {
    var along := Along(enc, front, g, now);
    forall s, p, j: nat | along(s, p, j) && j < n ensures CanStep(enc, along, s, j) {
      var step, q := CanDrop(enc, s, p, front, first, g, now, j);
      assert LeadsOn(enc, along, s, j, step, q);
    }
  }

  lemma CanDrop(enc: Encoding, st: State, history: seq<Row>, front: seq<Row>, first: int, g: int, now: Time, j: nat)
    returns (step: Step, past: seq<Row>)
    requires enc.Valid() && Behind(enc, st, history, front, g, now, j) && j < |front| - 1 && Even(front, first)
    ensures Clean(step) && Behind(enc, Next(enc, st, step), past, front, g, now, j + 1)
  {
    EvenTail(front, first, j);
    var after;
    step, after, past := DropsFirst(enc, st, history, front[j..], first + j, g, now);
    assert front[j..][1..] == front[j + 1..];
  }

  /** Call by call, all rows before the last `left` ones go. */
  lemma DropsSome(enc: Encoding, st: State, history: seq<Row>, front: seq<Row>, first: int,
                  g: int, now: Time, left: nat)
    returns (steps: seq<Step>, after: State, past: seq<Row>)
    requires enc.Valid() && HoledAt(enc, st, history, front, g) && DatedUpTo(st.rows, now)
    requires 0 < left <= |front| && Even(front, first)
    ensures CleanRun(steps) && after == Run(enc, st, steps)
    ensures HoledAt(enc, after, past, front[|front| - left..], g) && DatedUpTo(after.rows, now)
  {
    assert front[0..] == front;
    AlwaysCanDrop(enc, front, first, g, now, |front| - left);
    steps, after, past := StepByStep(enc, Along(enc, front, g, now), st, history, 0, |front| - left);
    assert Behind(enc, after, past, front, g, now, |front| - left);
  }

  lemma RunCons(enc: Encoding, st: State, step: Step, rest: seq<Step>)
    ensures Run(enc, st, [step] + rest) == Run(enc, Next(enc, st, step), rest)
  {
    assert ([step] + rest)[1..] == rest;
  }

  lemma EvenTail(rows: seq<Row>, first: int, n: nat)
    requires Even(rows, first) && n <= |rows|
    ensures Even(rows[n..], first + n)
  {
  }

  // ----- past the hole -----

  const A_LITTLE: Time := MICROSECOND

  /** With a cutoff after all rows, a call deletes as much as it may. */
  lemma CutOfAll(rows: seq<Row>, now: Time)
    requires rows != [] && DatedUpTo(rows, now)
    ensures var cut := Min(Last(rows).seqNo - 1, rows[0].seqNo + MAX_PRUNE - 1);
      PruneCut(rows, now, now + A_LITTLE) == if cut < rows[0].seqNo then None else Some(cut)
  {
    FirstKeptMeaning(rows, now + A_LITTLE);
    assert Last(rows) in rows;
  }

  /** If the limit ends right before the hole, a call deletes all of `front`. */
  lemma DropsFront(enc: Encoding, st: State, history: seq<Row>, front: seq<Row>, first: int, g: int, now: Time)
    returns (step: Step)
    requires enc.Valid() && HoledAt(enc, st, history, front, g) && DatedUpTo(st.rows, now)
    requires |front| == MAX_PRUNE && Even(front, first)
    ensures Clean(step)
    ensures HoledAt(enc, Next(enc, st, step), history + Written(enc, st, step), [], g)
    ensures DatedUpTo(Next(enc, st, step).rows, now)
  {
    step := Prune(now, now + A_LITTLE, now, true);
    HoledAscends(enc, st, history, front, g);
    HoledFacts(enc, st, history, front, g);
    TailFrom(enc, history, g);
    CutOfAll(st.rows, now);
    assert st.rows[0] == front[0];
    CutsAtRow(enc, st, history, front, g, now, now + A_LITTLE, |front|);
  }

  function Added(now: Time): AuditEntry {
    GatewayEntry(now, Other("session_activated", None, ""))
  }

  /** From close enough, one more record and one call heal the trail. */
  lemma HealsFromNear(enc: Encoding, st: State, history: seq<Row>, front: seq<Row>, g: int, now: Time)
    returns (steps: seq<Step>)
    requires enc.Valid() && HoledAt(enc, st, history, front, g) && DatedUpTo(st.rows, now)
    requires front == [] || g - front[0].seqNo < MAX_PRUNE
    ensures CleanRun(steps) && ChainOk(enc, Run(enc, st, steps).rows)
  {
    var one, two := Append([Added(now)], true), Prune(now, now + A_LITTLE, now, true);
    steps := [one, two];
    HoledAppend(enc, st, history, front, g, [Added(now)]);
    AddedAtEnd(enc, st, history, front, g, now);
    var more, past := Next(enc, st, one), history + Written(enc, st, one);
    HealsAtOnce(enc, more, past, front, g, now);
    Retention.TwoSteps(enc, st, one, two);
    CleanStateVerifies(enc, Next(enc, more, two), past + Written(enc, more, two));
  }

  lemma AddedAtEnd(enc: Encoding, st: State, history: seq<Row>, front: seq<Row>, g: int, now: Time)
    requires HoledAt(enc, st, history, front, g) && DatedUpTo(st.rows, now)
    ensures var rows := AppendTo(enc, st, [Added(now)]).rows;
      && rows == st.rows + Extend(enc, st.head, [Added(now)])
      && DatedUpTo(rows, now) && Last(rows).seqNo > g
  {
    HoledFacts(enc, st, history, front, g);
    TailFrom(enc, history, g);
    ExtendAt(enc, st.head, [Added(now)], 0);
    assert GenuineAt(enc, history, |history| - 1);
  }

  lemma StartsAt(enc: Encoding, st: State, history: seq<Row>, front: seq<Row>, g: int)
    requires HoledAt(enc, st, history, front, g)
    ensures st.rows != [] && st.rows[0].seqNo == (if front == [] then g else front[0].seqNo) <= g
  {
    HoledFacts(enc, st, history, front, g);
    TailFrom(enc, history, g);
    assert st.rows[0] == if front == [] then history[g - 1..][0] else front[0];
  }

  lemma CutIsPast(enc: Encoding, st: State, history: seq<Row>, front: seq<Row>, g: int, now: Time) returns (cut: int)
    requires HoledAt(enc, st, history, front, g) && DatedUpTo(st.rows, now)
    requires (front == [] || g - front[0].seqNo < MAX_PRUNE) && st.rows != [] && Last(st.rows).seqNo > g
    ensures PruneCut(st.rows, now, now + A_LITTLE) == Some(cut) && g <= cut < Last(st.rows).seqNo
  {
    StartsAt(enc, st, history, front, g);
    CutOfAll(st.rows, now);
    cut := Min(Last(st.rows).seqNo - 1, st.rows[0].seqNo + MAX_PRUNE - 1);
  }

  lemma HealsAtOnce(enc: Encoding, st: State, history: seq<Row>, front: seq<Row>, g: int, now: Time)
    requires enc.Valid() && HoledAt(enc, st, history, front, g) && DatedUpTo(st.rows, now)
    requires (front == [] || g - front[0].seqNo < MAX_PRUNE) && st.rows != [] && Last(st.rows).seqNo > g
    ensures var step := Prune(now, now + A_LITTLE, now, true);
      Healed(enc, Next(enc, st, step), history + Written(enc, st, step), g)
  {
    var cut := CutIsPast(enc, st, history, front, g, now);
    PastHole(enc, st, history, front, g, cut);
    var hash := HashAt(st.rows, cut).value;
    PrunesAt(enc, st, now, now + A_LITTLE, cut, hash);
    CutPastHole(enc, st, history, front, g, cut, hash, now);
  }

  // ----- the exact sizes -----

  /** Records a microsecond apart. */
  function Ticks(n: nat): seq<AuditEntry> {
    seq(n, i => Added(i * MICROSECOND))
  }

  lemma TicksAreEven(enc: Encoding, n: nat, keep: nat)
    requires keep < n
    ensures var st := Run(enc, EMPTY, [Append(Ticks(n), true)]);
      && |st.rows| == n == st.head.seqNo && Even(st.rows[..keep], 1)
      && (forall i :: 0 <= i < n ==> st.rows[i].seqNo == i + 1 && st.rows[i].columns.ts == i)
  {
    var step := Append(Ticks(n), true);
    assert [step][1..] == [];
    var st := Next(enc, EMPTY, step);
    assert Run(enc, EMPTY, [step]) == Run(enc, st, []);
    ExtendKeys(enc, START, Ticks(n));
    forall i | 0 <= i < n ensures st.rows[i].seqNo == i + 1 && st.rows[i].columns.ts == i {
      ExtendAt(enc, START, Ticks(n), i);
    }
  }

  lemma LossLeavesEven(enc: Encoding, keep: nat, lost: nat) returns (history: seq<Row>, front: seq<Row>)
    requires enc.Valid() && lost > 0
    ensures var n := keep + lost;
      var st := Run(enc, EMPTY, [Append(Ticks(n), true)]);
      var after := Next(enc, st, LoseTail(keep, n * MICROSECOND));
      && CleanRun([Append(Ticks(n), true)]) && |st.rows| == n
      && HoledAt(enc, after, history, front, n + 1) && DatedUpTo(after.rows, n * MICROSECOND)
      && |front| == keep && Even(front, 1) && (front != [] ==> Last(front).seqNo == keep)
  {
    var n := keep + lost;
    var earlier := [Append(Ticks(n), true)];
    EmptyIsClean(enc);
    RunStaysClean(enc, EMPTY, [], earlier);
    TicksAreEven(enc, n, keep);
    var st := Run(enc, EMPTY, earlier);
    var step := LoseTail(keep, n * MICROSECOND);
    LosingLeavesFront(enc, st, [] + History(enc, EMPTY, earlier), keep, n * MICROSECOND);
    history, front := [] + History(enc, EMPTY, earlier) + Written(enc, st, step), st.rows[..keep];
    LossIsDated(enc, st, keep, n * MICROSECOND);
  }

  lemma LossIsDated(enc: Encoding, st: State, keep: nat, now: Time)
    requires DatedUpTo(st.rows, now)
    ensures DatedUpTo(Next(enc, st, LoseTail(keep, now)).rows, now)
  {
    var left, head := Left(st.rows, keep), Resume(Left(st.rows, keep), st.chainHead);
    forall r | r in left ensures r in st.rows {
    }
    ExtendAt(enc, head, [GatewayEntry(now, TrailTruncated(head.seqNo, Found(left)))], 0);
  }

  lemma GetsPastFrom(enc: Encoding, st: State, history: seq<Row>, front: seq<Row>, first: int, g: int, now: Time)
    returns (later: seq<Step>)
    requires enc.Valid() && HoledAt(enc, st, history, front, g) && DatedUpTo(st.rows, now)
    requires Even(front, first) && (front == [] || |front| >= MAX_PRUNE || g - Last(front).seqNo < MAX_PRUNE)
    ensures CleanRun(later) && ChainOk(enc, Run(enc, st, later).rows)
  {
    if front == [] {
      later := HealsFromNear(enc, st, history, front, g, now);
    } else if g - Last(front).seqNo < MAX_PRUNE {
      later := GetsPastNarrow(enc, st, history, front, first, g, now);
    } else {
      later := GetsPastFront(enc, st, history, front, first, g, now);
    }
  }

  lemma GetsPastNarrow(enc: Encoding, st: State, history: seq<Row>, front: seq<Row>, first: int, g: int, now: Time)
    returns (later: seq<Step>)
    requires enc.Valid() && HoledAt(enc, st, history, front, g) && DatedUpTo(st.rows, now)
    requires Even(front, first) && front != [] && g - Last(front).seqNo < MAX_PRUNE
    ensures CleanRun(later) && ChainOk(enc, Run(enc, st, later).rows)
  {
    var some, near, past := DropsSome(enc, st, history, front, first, g, now, 1);
    assert front[|front| - 1..][0] == Last(front);
    var rest := HealsFromNear(enc, near, past, front[|front| - 1..], g, now);
    RunConcat(enc, st, some, rest);
    later := some + rest;
  }

  lemma GetsPastFront(enc: Encoding, st: State, history: seq<Row>, front: seq<Row>, first: int, g: int, now: Time)
    returns (later: seq<Step>)
    requires enc.Valid() && HoledAt(enc, st, history, front, g) && DatedUpTo(st.rows, now)
    requires Even(front, first) && |front| >= MAX_PRUNE
    ensures CleanRun(later) && ChainOk(enc, Run(enc, st, later).rows)
  {
    var some, near, past := DropsSome(enc, st, history, front, first, g, now, MAX_PRUNE);
    var left := front[|front| - MAX_PRUNE..];
    EvenTail(front, first, |front| - MAX_PRUNE);
    var step := DropsFront(enc, near, past, left, first + |front| - MAX_PRUNE, g, now);
    var rest := HealsFromNear(enc, Next(enc, near, step), past + Written(enc, near, step), [], g, now);
    RunCons(enc, near, step, rest);
    RunConcat(enc, st, some, [step] + rest);
    later := some + ([step] + rest);
  }

  lemma {:induction false} RunConcat(enc: Encoding, st: State, a: seq<Step>, b: seq<Step>)
    ensures Run(enc, st, a + b) == Run(enc, Run(enc, st, a), b)
    decreases a
  {
    if a == [] {
      assert a + b == b;
    } else {
      assert (a + b)[1..] == a[1..] + b;
      RunConcat(enc, Next(enc, st, a[0]), a[1..], b);
    }
  }

  /** After the run `earlier` all but `keep` records are lost; after `later` the
      trail verifies. */
  ghost predicate GetsPast(enc: Encoding, earlier: seq<Step>, keep: nat, stamp: Time, later: seq<Step>) {
    ChainOk(enc, Run(enc, Next(enc, Run(enc, EMPTY, earlier), LoseTail(keep, stamp)), later).rows)
  }

  /** Which losses are for good. That `lost` records vanish and `keep` are left
      breaks the trail for ever, in all runs before and after, exactly if some
      but fewer than `MAX_PRUNE` are left and at least `MAX_PRUNE - 1` are lost. */
  lemma LossIsForeverIff(enc: Encoding, keep: nat, lost: nat)
    requires enc.Valid() && lost > 0
    ensures (forall earlier, stamp: Time, later ::
               CleanRun(earlier) && CleanRun(later) && |Run(enc, EMPTY, earlier).rows| == keep + lost ==>
               !GetsPast(enc, earlier, keep, stamp, later))
       <==> 0 < keep < MAX_PRUNE && lost >= MAX_PRUNE - 1
  {
    if 0 < keep < MAX_PRUNE && lost >= MAX_PRUNE - 1 {
      forall earlier, stamp: Time, later
        | CleanRun(earlier) && CleanRun(later) && |Run(enc, EMPTY, earlier).rows| == keep + lost
        ensures !GetsPast(enc, earlier, keep, stamp, later)
      {
        LargeLossIsForever(enc, earlier, keep, stamp, later);
      }
    } else {
      var earlier, stamp, later := SomeRunGetsPast(enc, keep, lost);
    }
  }

  lemma SomeRunGetsPast(enc: Encoding, keep: nat, lost: nat)
    returns (earlier: seq<Step>, stamp: Time, later: seq<Step>)
    requires enc.Valid() && lost > 0 && !(0 < keep < MAX_PRUNE && lost >= MAX_PRUNE - 1)
    ensures CleanRun(earlier) && CleanRun(later) && |Run(enc, EMPTY, earlier).rows| == keep + lost
    ensures GetsPast(enc, earlier, keep, stamp, later)
  {
    var n := keep + lost;
    earlier, stamp := [Append(Ticks(n), true)], n * MICROSECOND;
    var history, front := LossLeavesEven(enc, keep, lost);
    var st := Next(enc, Run(enc, EMPTY, earlier), LoseTail(keep, stamp));
    later := GetsPastFrom(enc, st, history, front, 1, n + 1, stamp);
  }
}
