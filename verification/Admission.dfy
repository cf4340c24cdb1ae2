/**
 Which new connections a target accepts (`src/relay/mod.rs`, `Admission`): at
 most so many in all and per address, and per address at most five a second
 after a burst of ten. Times are seconds.
 */
module Admission {
  import opened Prelude

  type Ip = string

  const BURST: real := 10.0
  const IDLE: real := 60.0

  /** The tokens an address gains over time: five a second. */
  function Gained(seconds: real): real {
    seconds * 5.0
  }

  datatype Reason = NoReason | TargetFull | AddressFull | TooFast

  datatype Address = Address(active: nat, tokens: real, last: real, refused: nat, reason: Reason)

  datatype Limits = Limits(total: nat, perAddress: nat)

  datatype State = State(active: nat, addresses: map<Ip, Address>)

  /** The entry of an address, a new one if there is none. */
  function EntryOf(st: State, ip: Ip, now: real): Address {
    if ip in st.addresses then st.addresses[ip] else Address(0, BURST, now, 0, NoReason)
  }

  function MinReal(x: real, y: real): real {
    if x <= y then x else y
  }

  function Refilled(a: Address, now: real): Address {
    a.(tokens := MinReal(a.tokens + Gained(now - a.last), BURST), last := now)
  }

  /** Why a connection is refused; `NoReason` if it is not. */
  function Verdict(limits: Limits, active: nat, a: Address): Reason {
    if active >= limits.total then TargetFull
    else if a.active >= limits.perAddress then AddressFull
    else if a.tokens < 1.0 then TooFast
    else NoReason
  }

  function VerdictAt(limits: Limits, st: State, ip: Ip, now: real): Reason {
    Verdict(limits, st.active, Refilled(EntryOf(st, ip, now), now))
  }

  function AfterAdmit(limits: Limits, st: State, ip: Ip, now: real): State {
    var a := Refilled(EntryOf(st, ip, now), now);
    var reason := Verdict(limits, st.active, a);
    if reason.NoReason?
    then State(st.active + 1, st.addresses[ip := a.(tokens := a.tokens - 1.0, active := a.active + 1)])
    else st.(addresses := st.addresses[ip := a.(refused := a.refused + 1, reason := reason)])
  }

  function OneLess(n: nat): nat {
    if n > 0 then n - 1 else 0
  }

  function AfterRelease(st: State, ip: Ip): State {
    State(OneLess(st.active),
          if ip in st.addresses
          then st.addresses[ip := st.addresses[ip].(active := OneLess(st.addresses[ip].active))]
          else st.addresses)
  }

  predicate Kept(a: Address, now: real) {
    a.active > 0 || now - a.last < IDLE
  }

  datatype Refusals = Refusals(count: nat, reason: Reason)

  function Report(st: State): map<Ip, Refusals> {
    map ip | ip in st.addresses && st.addresses[ip].refused > 0
      :: Refusals(st.addresses[ip].refused, st.addresses[ip].reason)
  }

  function AfterReport(st: State, now: real): State {
    st.(addresses := map ip | ip in st.addresses && Kept(st.addresses[ip], now) :: st.addresses[ip].(refused := 0))
  }

  class Admission {
    const limits: Limits
    var active: nat
    var addresses: map<Ip, Address>

    function Value(): State
      reads this
    {
      State(active, addresses)
    }

    constructor (limits: Limits)
      ensures this.limits == limits && Value() == State(0, map[])
    {
      this.limits := limits;
      active, addresses := 0, map[];
    }

    method Admit(ip: Ip, now: real) returns (ok: bool)
      modifies this
      ensures ok <==> VerdictAt(limits, old(Value()), ip, now) == NoReason
      ensures Value() == AfterAdmit(limits, old(Value()), ip, now)
    {
      var full := active >= limits.total;
      ghost var before := addresses;
      if ip !in addresses {
        addresses := addresses[ip := Address(0, BURST, now, 0, NoReason)];
      }
      var state := addresses[ip];
      state := state.(tokens := MinReal(state.tokens + Gained(now - state.last), BURST), last := now);
      var reason;
      if full {
        reason := TargetFull;
      } else if state.active >= limits.perAddress {
        reason := AddressFull;
      } else if state.tokens < 1.0 {
        reason := TooFast;
      } else {
        state := state.(tokens := state.tokens - 1.0, active := state.active + 1);
        assert addresses[ip := state] == before[ip := state];
        addresses := addresses[ip := state];
        active := active + 1;
        return true;
      }
      state := state.(refused := state.refused + 1, reason := reason);
      assert addresses[ip := state] == before[ip := state];
      addresses := addresses[ip := state];
      ok := false;
    }

    method Release(ip: Ip)
      modifies this
      ensures Value() == AfterRelease(old(Value()), ip)
    {
      active := if active > 0 then active - 1 else 0;
      if ip in addresses {
        var state := addresses[ip];
        addresses := addresses[ip := state.(active := if state.active > 0 then state.active - 1 else 0)];
      }
    }

    /** Reports who was refused how often, and drops what is no longer needed. */
    method TakeRefused(now: real) returns (refused: map<Ip, Refusals>)
      modifies this
      ensures refused == Report(old(Value()))
      ensures Value() == AfterReport(old(Value()), now)
    {
      refused := map ip | ip in addresses && addresses[ip].refused > 0
        :: Refusals(addresses[ip].refused, addresses[ip].reason);
      addresses := map ip | ip in addresses :: addresses[ip].(refused := 0);
      addresses := map ip | ip in addresses && Kept(addresses[ip], now) :: addresses[ip];
    }
  }
}

/** What the admission of connections guarantees over every run. */
module AdmissionRuns {
  import opened Prelude
  import opened Admission

  datatype Event =
    | Connect(at: real, ip: Ip)
    | Disconnect(at: real, i: nat)   // the connection that is `i`th among the open ones
    | Tick(at: real)                 // the refusals are reported

  /** Besides the state: the addresses of the open connections, and how many
      refusals were reported. */
  datatype World = World(st: State, open: seq<Ip>, reported: map<Ip, nat>)

  const START: World := World(State(0, map[]), [], map[])

  function Count(open: seq<Ip>, ip: Ip): nat {
    if open == [] then 0 else Count(open[..|open| - 1], ip) + (if Last(open) == ip then 1 else 0)
  }

  function Total(reported: map<Ip, nat>, ip: Ip): nat {
    if ip in reported then reported[ip] else 0
  }

  function Adding(reported: map<Ip, nat>, refused: map<Ip, Refusals>): map<Ip, nat> {
    map ip | ip in reported.Keys + refused.Keys
      :: Total(reported, ip) + (if ip in refused then refused[ip].count else 0)
  }

  /** With `forgetful` false, addresses are never forgotten. */
  function Next(limits: Limits, forgetful: bool, w: World, e: Event): World {
    match e
    case Connect(now, ip) =>
      w.(st := AfterAdmit(limits, w.st, ip, now),
         open := if VerdictAt(limits, w.st, ip, now).NoReason? then w.open + [ip] else w.open)
    case Disconnect(_, i) =>
      if i < |w.open|
      then w.(st := AfterRelease(w.st, w.open[i]), open := w.open[..i] + w.open[i + 1..])
      else w
    case Tick(now) =>
      w.(st := if forgetful then AfterReport(w.st, now) else NothingForgotten(w.st),
         reported := Adding(w.reported, Report(w.st)))
  }

  function NothingForgotten(st: State): State {
    st.(addresses := map ip | ip in st.addresses :: st.addresses[ip].(refused := 0))
  }

  function Run(limits: Limits, forgetful: bool, w: World, events: seq<Event>): World
    decreases events
  {
    if events == [] then w else Run(limits, forgetful, Next(limits, forgetful, w, events[0]), events[1..])
  }

  /** Time does not run backwards. */
  predicate Within(events: seq<Event>, from: real, until: real)
    decreases events
  {
    if events == [] then from <= until
    else from <= events[0].at && Within(events[1..], events[0].at, until)
  }

  // ----- the rate -----

  predicate Admits(limits: Limits, w: World, e: Event, ip: Ip) {
    e.Connect? && e.ip == ip && VerdictAt(limits, w.st, ip, e.at).NoReason?
  }

  /** How many connections of `ip` the events admit. */
  function Admissions(limits: Limits, w: World, events: seq<Event>, ip: Ip): nat
    decreases events
  {
    if events == [] then 0
    else
      (if Admits(limits, w, events[0], ip) then 1 else 0)
      + Admissions(limits, Next(limits, true, w, events[0]), events[1..], ip)
  }

  /** The tokens an address has now; a forgotten address has all of them. */
  function Level(st: State, ip: Ip, now: real): real {
    Refilled(EntryOf(st, ip, now), now).tokens
  }

  predicate Timely(st: State, now: real) {
    forall ip :: ip in st.addresses ==> 0.0 <= st.addresses[ip].tokens <= BURST && st.addresses[ip].last <= now
  }

  lemma LevelRises(st: State, ip: Ip, now: real, later: real)
    requires Timely(st, now) && now <= later
    ensures Timely(st, later)
    ensures 0.0 <= Level(st, ip, now) <= Level(st, ip, later) <= BURST
    ensures Level(st, ip, later) <= Level(st, ip, now) + Gained(later - now)
  {
  }

  /** Every admission takes a token; forgetting an address gives it none. */
  lemma StepTakesTokens(limits: Limits, w: World, e: Event, ip: Ip)
    requires Timely(w.st, e.at)
    ensures Timely(Next(limits, true, w, e).st, e.at)
    ensures Level(Next(limits, true, w, e).st, ip, e.at)
         == Level(w.st, ip, e.at) - (if Admits(limits, w, e, ip) then 1.0 else 0.0)
  {
    match e
    case Connect(now, to) => ConnectTakesToken(limits, w.st, to, now, ip);
    case Disconnect(_, i) =>
      if i < |w.open| {
        ReleaseTakesNone(w.st, w.open[i], e.at, ip);
      }
    case Tick(now) => ReportTakesNone(w.st, now, ip);
  }

  lemma ConnectTakesToken(limits: Limits, st: State, to: Ip, now: real, ip: Ip)
    requires Timely(st, now)
    ensures var after := AfterAdmit(limits, st, to, now);
      && Timely(after, now)
      && Level(after, ip, now)
         == Level(st, ip, now) - (if to == ip && VerdictAt(limits, st, to, now).NoReason? then 1.0 else 0.0)
  {
  }

  lemma ReleaseTakesNone(st: State, of: Ip, now: real, ip: Ip)
    requires Timely(st, now)
    ensures Timely(AfterRelease(st, of), now) && Level(AfterRelease(st, of), ip, now) == Level(st, ip, now)
  {
  }

  lemma ReportTakesNone(st: State, now: real, ip: Ip)
    requires Timely(st, now)
    ensures Timely(AfterReport(st, now), now) && Level(AfterReport(st, now), ip, now) == Level(st, ip, now)
  {
  }

  lemma {:induction false} AdmissionsAreTokens(limits: Limits, w: World, events: seq<Event>, ip: Ip, from: real,
                                               until: real)
    requires Timely(w.st, from) && Within(events, from, until)
    ensures Timely(Run(limits, true, w, events).st, until)
    ensures Admissions(limits, w, events, ip) as real + Level(Run(limits, true, w, events).st, ip, until)
         <= Level(w.st, ip, from) + Gained(until - from)
    decreases events
  {
    if events == [] {
      LevelRises(w.st, ip, from, until);
    } else {
      LevelRises(w.st, ip, from, events[0].at);
      StepTakesTokens(limits, w, events[0], ip);
      AdmissionsAreTokens(limits, Next(limits, true, w, events[0]), events[1..], ip, events[0].at, until);
    }
  }

  /** In any period of `until - from` seconds, after any run before it, one
      address is admitted at most 10 + 5 * (until - from) times. */
  lemma RateIsBounded(limits: Limits, before: seq<Event>, events: seq<Event>, ip: Ip, start: real, from: real,
                      until: real)
    requires Within(before, start, from) && Within(events, from, until)
    ensures Admissions(limits, Run(limits, true, START, before), events, ip) as real <= 10.0 + 5.0 * (until - from)
  {
    var w := Run(limits, true, START, before);
    AdmissionsAreTokens(limits, START, before, ip, start, from);
    AdmissionsAreTokens(limits, w, events, ip, from, until);
    LevelRises(w.st, ip, from, from);
    AtLeastNothing(limits, w, events, ip, from, until);
  }

  lemma AtLeastNothing(limits: Limits, w: World, events: seq<Event>, ip: Ip, from: real, until: real)
    requires Timely(w.st, from) && Within(events, from, until)
    ensures 0.0 <= Level(Run(limits, true, w, events).st, ip, until)
  {
    AdmissionsAreTokens(limits, w, events, ip, from, until);
    LevelRises(Run(limits, true, w, events).st, ip, until, until);
  }

  // ----- who is let in -----

  /** Tokens come at the rate until there are as many as the burst. */
  lemma LevelExactly(st: State, ip: Ip, now: real, later: real)
    requires Timely(st, now) && now <= later
    ensures Level(st, ip, later) == MinReal(Level(st, ip, now) + 5.0 * (later - now), 10.0)
  {
  }

  lemma MinRises(x: real, a: real, b: real)
    requires a >= 0.0 && b >= 0.0
    ensures MinReal(MinReal(x + a, 10.0) + b, 10.0) == MinReal(x + (a + b), 10.0)
  {
  }

  lemma {:induction false} WithinLasts(events: seq<Event>, from: real, until: real)
    requires Within(events, from, until)
    ensures from <= until
    decreases events
  {
    if events != [] {
      WithinLasts(events[1..], events[0].at, until);
    }
  }

  lemma {:induction false} NotAdmittedRises(limits: Limits, w: World, events: seq<Event>, ip: Ip, from: real,
                                            until: real)
    requires Timely(w.st, from) && Within(events, from, until) && Admissions(limits, w, events, ip) == 0
    ensures Timely(Run(limits, true, w, events).st, until)
    ensures Level(Run(limits, true, w, events).st, ip, until)
         >= MinReal(Level(w.st, ip, from) + 5.0 * (until - from), 10.0)
    decreases events
  {
    if events == [] {
      LevelExactly(w.st, ip, from, until);
      LevelRises(w.st, ip, from, until);
    } else {
      LevelRises(w.st, ip, from, events[0].at);
      LevelExactly(w.st, ip, from, events[0].at);
      StepTakesTokens(limits, w, events[0], ip);
      var after := Next(limits, true, w, events[0]);
      assert !Admits(limits, w, events[0], ip) && Admissions(limits, after, events[1..], ip) == 0;
      NotAdmittedRises(limits, after, events[1..], ip, events[0].at, until);
      WithinLasts(events[1..], events[0].at, until);
      MinRises(Level(w.st, ip, from), 5.0 * (events[0].at - from), 5.0 * (until - events[0].at));
    }
  }

  /** After any run, a connection is let in exactly if fewer are open than may be,
      in all and from its address, and the address has a token left; otherwise
      the reason is the first of these that fails. */
  lemma AdmittedExactlyIf(limits: Limits, events: seq<Event>, ip: Ip, now: real)
    ensures var w := Run(limits, true, START, events);
      var reason := VerdictAt(limits, w.st, ip, now);
      && (reason.TargetFull? <==> |w.open| >= limits.total)
      && (reason.AddressFull? <==> |w.open| < limits.total && Count(w.open, ip) >= limits.perAddress)
      && (reason.TooFast? <==> |w.open| < limits.total && Count(w.open, ip) < limits.perAddress
                               && Level(w.st, ip, now) < 1.0)
  {
    CountsAreExact(limits, events, ip);
  }

  /** Where there is room, an address that was not let in for a fifth of a second
      is let in, however often it tried meanwhile. */
  lemma RestedIsAdmitted(limits: Limits, before: seq<Event>, events: seq<Event>, ip: Ip, start: real, from: real,
                         until: real)
    requires Within(before, start, from) && Within(events, from, until) && until - from >= 0.2
    requires Admissions(limits, Run(limits, true, START, before), events, ip) == 0
    requires var open := Run(limits, true, START, before + events).open;
      |open| < limits.total && Count(open, ip) < limits.perAddress
    ensures VerdictAt(limits, Run(limits, true, START, before + events).st, ip, until).NoReason?
  {
    var w := Run(limits, true, START, before);
    AdmissionsAreTokens(limits, START, before, ip, start, from);
    LevelRises(w.st, ip, from, from);
    NotAdmittedRises(limits, w, events, ip, from, until);
    RunConcat(limits, START, before, events);
    AdmittedExactlyIf(limits, before + events, ip, until);
  }

  lemma {:induction false} RunConcat(limits: Limits, w: World, a: seq<Event>, b: seq<Event>)
    ensures Run(limits, true, w, a + b) == Run(limits, true, Run(limits, true, w, a), b)
    decreases a
  {
    if a == [] {
      assert a + b == b;
    } else {
      assert (a + b)[1..] == a[1..] + b;
      RunConcat(limits, Next(limits, true, w, a[0]), a[1..], b);
    }
  }

  /** What is reported of an address is the reason of its last refusal. */
  lemma LastReasonIsReported(limits: Limits, st: State, ip: Ip, now: real)
    requires !VerdictAt(limits, st, ip, now).NoReason?
    ensures var report := Report(AfterAdmit(limits, st, ip, now));
      ip in report && report[ip].reason == VerdictAt(limits, st, ip, now)
  {
  }

  /** Of the addresses known, exactly those are forgotten that have no connection
      and did not try to open one for a minute. */
  lemma ForgottenExactlyIf(st: State, ip: Ip, now: real)
    requires ip in st.addresses
    ensures ip !in AfterReport(st, now).addresses <==>
              st.addresses[ip].active == 0 && now - st.addresses[ip].last >= 60.0
  {
  }

  // ----- the counts -----

  /** The counts are those of the open connections, and within the limits. */
  ghost predicate Balanced(limits: Limits, w: World) {
    && w.st.active == |w.open| <= limits.total
    && (forall ip :: Count(w.open, ip) == EntryOf(w.st, ip, 0.0).active <= limits.perAddress)
  }

  lemma {:induction false} CountConcat(a: seq<Ip>, b: seq<Ip>, ip: Ip)
    ensures Count(a + b, ip) == Count(a, ip) + Count(b, ip)
  {
    if b == [] {
      assert a + b == a;
    } else {
      assert (a + b)[..|a + b| - 1] == a + b[..|b| - 1];
      CountConcat(a, b[..|b| - 1], ip);
    }
  }

  lemma CountWithout(open: seq<Ip>, i: nat, ip: Ip)
    requires i < |open|
    ensures Count(open, ip) == Count(open[..i] + open[i + 1..], ip) + (if open[i] == ip then 1 else 0)
  {
    CountConcat(open[..i], open[i + 1..], ip);
    CountConcat(open[..i], open[i..i + 1], ip);
    CountConcat(open[..i + 1], open[i + 1..], ip);
    assert open[..i] + open[i..i + 1] == open[..i + 1];
    assert open[..i + 1] + open[i + 1..] == open;
    assert open[i..i + 1] == [open[i]];
  }

  lemma StepStaysBalanced(limits: Limits, forgetful: bool, w: World, e: Event)
    requires Balanced(limits, w)
    ensures Balanced(limits, Next(limits, forgetful, w, e))
  {
    match e
    case Connect(now, to) => ConnectStaysBalanced(limits, forgetful, w, e);
    case Disconnect(_, i) =>
      if i < |w.open| {
        DisconnectStaysBalanced(limits, forgetful, w, e);
      }
    case Tick(_) => TickStaysBalanced(limits, forgetful, w, e);
  }

  lemma ConnectStaysBalanced(limits: Limits, forgetful: bool, w: World, e: Event)
    requires Balanced(limits, w) && e.Connect?
    ensures Balanced(limits, Next(limits, forgetful, w, e))
  {
    assert (w.open + [e.ip])[..|w.open|] == w.open;
    assert Count(w.open, e.ip) == EntryOf(w.st, e.ip, 0.0).active;
  }

  lemma DisconnectStaysBalanced(limits: Limits, forgetful: bool, w: World, e: Event)
    requires Balanced(limits, w) && e.Disconnect? && e.i < |w.open|
    ensures Balanced(limits, Next(limits, forgetful, w, e))
  {
    var st, open := AfterRelease(w.st, w.open[e.i]), w.open[..e.i] + w.open[e.i + 1..];
    forall ip ensures Count(open, ip) == EntryOf(st, ip, 0.0).active <= limits.perAddress {
      assert Count(w.open, ip) == EntryOf(w.st, ip, 0.0).active;
      CountWithout(w.open, e.i, ip);
    }
  }

  lemma TickStaysBalanced(limits: Limits, forgetful: bool, w: World, e: Event)
    requires Balanced(limits, w) && e.Tick?
    ensures Balanced(limits, Next(limits, forgetful, w, e))
  {
  }

  lemma {:induction false} RunStaysBalanced(limits: Limits, forgetful: bool, w: World, events: seq<Event>)
    requires Balanced(limits, w)
    ensures Balanced(limits, Run(limits, forgetful, w, events))
    decreases events
  {
    if events != [] {
      StepStaysBalanced(limits, forgetful, w, events[0]);
      RunStaysBalanced(limits, forgetful, Next(limits, forgetful, w, events[0]), events[1..]);
    }
  }

  /** The total is that of the open connections, and so are the counts per
      address, also of forgotten ones; neither exceeds its limit. */
  lemma CountsAreExact(limits: Limits, events: seq<Event>, ip: Ip)
    ensures var w := Run(limits, true, START, events);
      && w.st.active == |w.open| <= limits.total
      && Count(w.open, ip) == EntryOf(w.st, ip, 0.0).active <= limits.perAddress
  {
    RunStaysBalanced(limits, true, START, events);
  }

  // ----- the refusals -----

  /** How many connections of `ip` the events refuse. */
  function Refused(limits: Limits, w: World, events: seq<Event>, ip: Ip): nat
    decreases events
  {
    if events == [] then 0
    else
      (if events[0].Connect? && events[0].ip == ip && !VerdictAt(limits, w.st, ip, events[0].at).NoReason? then 1 else 0)
      + Refused(limits, Next(limits, true, w, events[0]), events[1..], ip)
  }

  function Pending(w: World, ip: Ip): nat {
    EntryOf(w.st, ip, 0.0).refused
  }

  lemma {:induction false} RefusalsAddUp(limits: Limits, w: World, events: seq<Event>, ip: Ip)
    ensures var after := Run(limits, true, w, events);
      Total(after.reported, ip) + Pending(after, ip)
        == Total(w.reported, ip) + Pending(w, ip) + Refused(limits, w, events, ip)
    decreases events
  {
    if events != [] {
      RefusalsAddUp(limits, Next(limits, true, w, events[0]), events[1..], ip);
    }
  }

  /** Every refusal is reported or waits to be; forgetting loses none. */
  lemma EveryRefusalIsReported(limits: Limits, events: seq<Event>, ip: Ip)
    ensures var w := Run(limits, true, START, events);
      Total(w.reported, ip) + Pending(w, ip) == Refused(limits, START, events, ip)
  {
    RefusalsAddUp(limits, START, events, ip);
  }

  // ----- forgetting -----

  /** An entry that nobody would miss: as good as a new one. */
  predicate Idle(a: Address, now: real) {
    a.active == 0 && a.refused == 0 && now - a.last >= IDLE
  }

  /** The same up to the reason of no refusal. */
  predicate Alike(a: Address, b: Address) {
    a.(reason := NoReason) == b.(reason := NoReason) && (a.refused > 0 ==> a.reason == b.reason)
  }

  /** `a` has forgotten some idle addresses that `b` still has. */
  ghost predicate Matches(a: World, b: World, now: real) {
    && a.open == b.open && a.reported == b.reported && a.st.active == b.st.active
    && Timely(b.st, now) && a.st.addresses.Keys <= b.st.addresses.Keys
    && (forall ip :: ip in a.st.addresses ==> Alike(a.st.addresses[ip], b.st.addresses[ip]))
    && (forall ip :: ip in b.st.addresses && ip !in a.st.addresses ==> Idle(b.st.addresses[ip], now))
  }

  lemma EntriesAlike(a: World, b: World, ip: Ip, now: real)
    requires Matches(a, b, now)
    ensures Refilled(EntryOf(a.st, ip, now), now).(reason := NoReason)
         == Refilled(EntryOf(b.st, ip, now), now).(reason := NoReason)
  {
  }

  lemma ConnectMatches(limits: Limits, a: World, b: World, e: Event)
    requires Matches(a, b, e.at) && e.Connect?
    ensures VerdictAt(limits, a.st, e.ip, e.at) == VerdictAt(limits, b.st, e.ip, e.at)
    ensures Matches(Next(limits, true, a, e), Next(limits, false, b, e), e.at)
  {
    EntriesAlike(a, b, e.ip, e.at);
    ConnectTakesToken(limits, b.st, e.ip, e.at, e.ip);
  }

  lemma TickMatches(limits: Limits, a: World, b: World, e: Event)
    requires Matches(a, b, e.at) && e.Tick?
    ensures Report(a.st) == Report(b.st)
    ensures Matches(Next(limits, true, a, e), Next(limits, false, b, e), e.at)
  {
  }

  lemma DisconnectMatches(limits: Limits, a: World, b: World, e: Event)
    requires Matches(a, b, e.at) && e.Disconnect?
    ensures Matches(Next(limits, true, a, e), Next(limits, false, b, e), e.at)
  {
  }

  lemma TimePasses(a: World, b: World, now: real, later: real)
    requires Matches(a, b, now) && now <= later
    ensures Matches(a, b, later)
  {
  }

  /** What is decided about each new connection. */
  function Decisions(limits: Limits, forgetful: bool, w: World, events: seq<Event>): seq<Reason>
    decreases events
  {
    if events == [] then []
    else
      (if events[0].Connect? then [VerdictAt(limits, w.st, events[0].ip, events[0].at)] else [])
      + Decisions(limits, forgetful, Next(limits, forgetful, w, events[0]), events[1..])
  }

  lemma {:induction false} RunMatches(limits: Limits, a: World, b: World, events: seq<Event>, from: real, until: real)
    requires Matches(a, b, from) && Within(events, from, until)
    ensures Decisions(limits, true, a, events) == Decisions(limits, false, b, events)
    ensures Matches(Run(limits, true, a, events), Run(limits, false, b, events), until)
    decreases events
  {
    if events == [] {
      TimePasses(a, b, from, until);
    } else {
      var e := events[0];
      TimePasses(a, b, from, e.at);
      match e {
        case Connect(_, _) => ConnectMatches(limits, a, b, e);
        case Disconnect(_, _) => DisconnectMatches(limits, a, b, e);
        case Tick(_) => TickMatches(limits, a, b, e);
      }
      RunMatches(limits, Next(limits, true, a, e), Next(limits, false, b, e), events[1..], e.at, until);
    }
  }

  /** Forgetting addresses without connections after a minute changes nothing:
      never forgetting any would decide the same about every connection, and
      report the same refusals. */
  lemma ForgettingChangesNothing(limits: Limits, events: seq<Event>, from: real, until: real)
    requires Within(events, from, until)
    ensures Decisions(limits, true, START, events) == Decisions(limits, false, START, events)
    ensures Run(limits, true, START, events).reported == Run(limits, false, START, events).reported
  {
    RunMatches(limits, START, START, events, from, until);
  }
}
