/**
 Opening and renewing a secure channel (`src/relay/connection.rs`,
 `open_secure_channel`; `src/relay/transport.rs`, `check_renewal`).
 */
module SecureChannels {
  import opened Prelude

  datatype Policy = NoSecurity | Secure(uri: string)

  datatype Mode = Invalid | Unsecured | Sign | SignAndEncrypt

  /** The more a channel protects, the higher it ranks. */
  function SecurityRank(policy: Policy, mode: Mode): nat {
    match (policy, mode)
    case (NoSecurity, _) => 0
    case (_, Sign) => 1
    case (_, SignAndEncrypt) => 2
    case _ => 0
  }

  /** The security of an issued channel, which renewals must present. */
  datatype Binding = Binding(policy: Policy, certificate: string)

  datatype OpenRequest = OpenRequest(
    policy: Policy,
    certificate: string,
    renew: bool,
    mode: Mode,
    nonce: string)

  datatype Setup = Fine | BadCertificate | BadNonce

  /** What is checked against the outside: the protocol version, the endpoints
      the target offers, the trust list, and the certificate and nonce forms. */
  datatype Checks = Checks(version: bool, offered: bool, trusted: bool, setup: Setup)

  datatype Channel = Channel(
    issued: bool,
    closing: bool,
    policy: Policy,
    mode: Mode,
    certificate: string,
    nonce: string,
    lastTokenId: nat,
    binding: Option<Binding>)

  const UNOPENED: Channel := Channel(false, false, NoSecurity, Invalid, "", "", 0, None)

  predicate Consistent(policy: Policy, mode: Mode) {
    match mode
    case Unsecured => policy.NoSecurity?
    case Sign => policy.Secure?
    case SignAndEncrypt => policy.Secure?
    case Invalid => false
  }

  predicate RenewalAllowed(ch: Channel, r: OpenRequest, checks: Checks) {
    && ch.issued && r.mode == ch.mode
    && (ch.policy.Secure? ==> r.nonce != ch.nonce && checks.trusted)
  }

  predicate IssueAllowed(ch: Channel, r: OpenRequest, checks: Checks) {
    && !ch.issued && Consistent(ch.policy, r.mode)
    && (ch.policy.Secure? ==> checks.offered && checks.trusted)
  }

  /** The token is given out before the certificate and the nonce are set. */
  function Installed(ch: Channel, r: OpenRequest, setup: Setup): Channel {
    var begun := ch.(mode := r.mode, lastTokenId := ch.lastTokenId + 1);
    match setup
    case BadCertificate => begun.(closing := true)
    case BadNonce => begun.(certificate := r.certificate, closing := true)
    case Fine =>
      begun.(certificate := r.certificate, nonce := r.nonce, issued := true,
             binding := if r.renew then ch.binding else Some(Binding(ch.policy, r.certificate)))
  }

  function Opened(ch: Channel, r: OpenRequest, checks: Checks): Channel {
    if checks.version && (if r.renew then RenewalAllowed(ch, r, checks) else IssueAllowed(ch, r, checks))
    then Installed(ch, r, checks.setup)
    else ch.(closing := true)
  }

  predicate Bound(binding: Option<Binding>, r: OpenRequest) {
    binding.Some? ==> r.policy == binding.value.policy && r.certificate == binding.value.certificate
  }

  /** What receiving an OpenSecureChannel does. The binding is checked before the
      channel takes over the policy of the request. */
  function Received(ch: Channel, r: OpenRequest, checks: Checks): Channel {
    if ch.closing then ch
    else if !Bound(ch.binding, r) then ch.(closing := true)
    else Opened(ch.(policy := r.policy), r, checks)
  }

  class Connection {
    var issued: bool
    var closing: bool
    var policy: Policy
    var mode: Mode
    var certificate: string
    var nonce: string
    var lastTokenId: nat
    var binding: Option<Binding>

    function Value(): Channel
      reads this
    {
      Channel(issued, closing, policy, mode, certificate, nonce, lastTokenId, binding)
    }

    constructor ()
      ensures Value() == UNOPENED
    {
      issued, closing, policy, mode := false, false, NoSecurity, Invalid;
      certificate, nonce, lastTokenId, binding := "", "", 0, None;
    }

    method Close()
      modifies this`closing
      ensures closing
    {
      closing := true;
    }

    method Receive(r: OpenRequest, checks: Checks)
      modifies this
      ensures Value() == Received(old(Value()), r, checks)
    {
      if closing {
        return;
      }
      if binding.Some? && (r.policy != binding.value.policy || r.certificate != binding.value.certificate) {
        Close();
        return;
      }
      policy := r.policy;
      OpenSecureChannel(r, checks);
    }

    method OpenSecureChannel(r: OpenRequest, checks: Checks)
      modifies this
      ensures Value() == Opened(old(Value()), r, checks)
    {
      if !checks.version {
        Close();
        return;
      }
      if r.renew {
        if !issued || r.mode != mode {
          Close();
          return;
        }
        if policy.Secure? && (r.nonce == nonce || !checks.trusted) {
          Close();
          return;
        }
      } else {
        if issued || !Consistent(policy, r.mode) {
          Close();
          return;
        }
        if policy.Secure? && (!checks.offered || !checks.trusted) {
          Close();
          return;
        }
      }
      lastTokenId := lastTokenId + 1;
      mode := r.mode;
      if checks.setup.BadCertificate? {
        Close();
        return;
      }
      certificate := r.certificate;
      if checks.setup.BadNonce? {
        Close();
        return;
      }
      nonce := r.nonce;
      if !r.renew {
        issued := true;
        binding := Some(Binding(policy, r.certificate));
      }
    }
  }

  /** An issued channel is bound to its policy and certificate, and secured by
      both a policy and a mode, or by neither. */
  predicate WellBound(ch: Channel) {
    && (ch.issued <==> ch.binding.Some?)
    && (ch.issued ==> ch.binding.value == Binding(ch.policy, ch.certificate)
                      && Consistent(ch.policy, ch.mode) && ch.lastTokenId > 0)
  }

  /** Once a channel is issued, no OpenSecureChannel changes its policy, its
      certificate or its mode, whatever it contains; an accepted one has a new,
      greater token id, and one that is not accepted ends the connection. */
  lemma IssuedChannelNeverChanges(ch: Channel, r: OpenRequest, checks: Checks)
    requires WellBound(ch) && ch.issued
    ensures var after := Received(ch, r, checks);
      && WellBound(after) && after.issued
      && after.policy == ch.policy && after.mode == ch.mode && after.certificate == ch.certificate
      && after.lastTokenId >= ch.lastTokenId
      && (!after.closing ==> r.renew && after.lastTokenId > ch.lastTokenId)
  {
  }

  /** A channel is issued only by a first request, with a policy and a mode that
      secure it or neither, over a policy the target offers and with a trusted
      certificate unless it is unsecured. */
  lemma IssuedOnlyByTheRules(ch: Channel, r: OpenRequest, checks: Checks)
    requires WellBound(ch) && !ch.issued
    ensures var after := Received(ch, r, checks);
      && WellBound(after)
      && (after.issued <==>
            && !ch.closing && !r.renew && checks.version && checks.setup.Fine?
            && (if r.policy.Secure? then r.mode == Sign || r.mode == SignAndEncrypt else r.mode == Unsecured)
            && (r.policy.Secure? ==> checks.offered && checks.trusted))
      && (after.issued ==> after.policy == r.policy && after.mode == r.mode && after.certificate == r.certificate
                           && after.nonce == r.nonce)
      && (after.issued || after.closing)
  {
  }

  /** A renewal is accepted only with the policy, the certificate and the mode of
      the channel, and, unless it is unsecured, with a new nonce and a
      certificate that is still trusted. */
  lemma RenewedOnlyByTheRules(ch: Channel, r: OpenRequest, checks: Checks)
    requires WellBound(ch) && ch.issued && !ch.closing
    ensures var after := Received(ch, r, checks);
      && (!after.closing <==>
            && r.renew && checks.version && checks.setup.Fine?
            && r.policy == ch.policy && r.certificate == ch.certificate && r.mode == ch.mode
            && (ch.policy.Secure? ==> r.nonce != ch.nonce && checks.trusted))
      && (!after.closing ==> after == ch.(nonce := r.nonce, lastTokenId := ch.lastTokenId + 1))
  {
  }
}

/**
 The sessions of a target, over all its connections (`src/relay/connection.rs`,
 `create_session`, `activate_session`, `close_session`; `src/relay/mod.rs`,
 `SessionRegistry`). Creating and activating wait for the server in between, so
 they are two steps each, and anything can happen meanwhile.
 */
module Sessions {
  import opened Prelude
  import opened SecureChannels

  /** What a request knows of the channel it came over. */
  datatype Ctx = Ctx(connection: nat, policy: Policy, mode: Mode, certificate: Option<string>)

  datatype Session = Session(certificate: Option<string>, policy: Policy, mode: Mode, owner: nat)

  datatype Task = Creating(ctx: Ctx) | Activating(ctx: Ctx, token: string)

  datatype Gateway = Gateway(
    connections: seq<Channel>,
    sessions: map<string, Session>,   // by authentication token
    tasks: seq<Task>)                 // waiting for the server

  datatype Step =
    | Connect
    | Open(c: nat, request: OpenRequest, checks: Checks)
    | End(c: nat)                                        // the connection closes
    | StartCreate(c: nat)
    | FinishCreate(i: nat, answer: Option<string>)       // the server's token
    | StartActivate(c: nat, token: string, signed: bool)
    | FinishActivate(i: nat, accepted: bool)
    | CloseSession(c: nat, token: string)
    | Forget(token: string)                              // timed out

  const EMPTY: Gateway := Gateway([], map[], [])

  class SessionRegistry {
    var sessions: map<string, Session>

    constructor ()
      ensures sessions == map[]
    {
      sessions := map[];
    }

    /** Forgets the `stale` sessions and adds one. */
    method Insert(token: string, entry: Session, stale: set<string>)
      modifies this
      ensures sessions == (old(sessions) - stale)[token := entry]
    {
      sessions := sessions - stale;
      sessions := sessions[token := entry];
    }

    /** From now on the session, if it is still there, belongs to `connection`. */
    method TakeOver(token: string, connection: nat)
      modifies this
      ensures sessions == TakenOver(old(sessions), token, connection)
    {
      if token in sessions {
        sessions := sessions[token := sessions[token].(owner := connection)];
      }
    }

    /** Ends a session, but only for the connection that owns it. */
    method RemoveOwned(token: string, connection: nat) returns (removed: Option<Session>)
      modifies this
      ensures sessions == WithoutOwned(old(sessions), token, connection)
      ensures removed == if token in old(sessions) && old(sessions)[token].owner == connection
                         then Some(old(sessions)[token]) else None
    {
      if token !in sessions || sessions[token].owner != connection {
        return None;
      }
      removed := Some(sessions[token]);
      sessions := sessions - {token};
    }
  }

  function TakenOver(sessions: map<string, Session>, token: string, connection: nat): map<string, Session> {
    if token in sessions then sessions[token := sessions[token].(owner := connection)] else sessions
  }

  function WithoutOwned(sessions: map<string, Session>, token: string, connection: nat): map<string, Session> {
    if token in sessions && sessions[token].owner == connection then sessions - {token} else sessions
  }

  function CtxOf(ch: Channel, c: nat): Ctx {
    Ctx(c, ch.policy, ch.mode, if ch.policy.NoSecurity? then None else Some(ch.certificate))
  }

  /** The connection takes requests other than OpenSecureChannel. */
  predicate Takes(st: Gateway, c: nat) {
    c < |st.connections| && st.connections[c].issued && !st.connections[c].closing
  }

  /** `activate_session` before it asks the server: no weaker security than at
      creation, and over a secure channel the same client, proved by signature. */
  predicate MayActivate(thumbprint: string -> string, ctx: Ctx, s: Session, signed: bool) {
    && SecurityRank(ctx.policy, ctx.mode) >= SecurityRank(s.policy, s.mode)
    && (ctx.policy.Secure? ==> SameClient(thumbprint, ctx, s) && signed)
  }

  predicate SameClient(thumbprint: string -> string, ctx: Ctx, s: Session) {
    s.certificate.Some? && ctx.certificate.Some? && thumbprint(s.certificate.value) == thumbprint(ctx.certificate.value)
  }

  /** What a channel has of encryption and signatures, the other has too. */
  predicate ProtectsAsMuch(policy: Policy, mode: Mode, least: Policy, leastMode: Mode) {
    && (least.Secure? && leastMode == SignAndEncrypt ==> policy.Secure? && mode == SignAndEncrypt)
    && (least.Secure? && leastMode == Sign ==> policy.Secure? && (mode == Sign || mode == SignAndEncrypt))
  }

  /** A session may be activated over a channel exactly if that protects as much
      as the one of its creation, and, unless it is unsecured, the client has the
      same certificate and signs for it. */
  lemma MayActivateExactlyIf(thumbprint: string -> string, ctx: Ctx, s: Session, signed: bool)
    ensures MayActivate(thumbprint, ctx, s, signed) <==>
      && ProtectsAsMuch(ctx.policy, ctx.mode, s.policy, s.mode)
      && (ctx.policy.Secure? ==>
            && signed && s.certificate.Some? && ctx.certificate.Some?
            && thumbprint(s.certificate.value) == thumbprint(ctx.certificate.value))
  {
  }

  function Without(tasks: seq<Task>, i: nat): seq<Task>
    requires i < |tasks|
  {
    tasks[..i] + tasks[i + 1..]
  }

  function NextConnections(st: Gateway, step: Step): seq<Channel> {
    match step
    case Connect => st.connections + [UNOPENED]
    case Open(c, r, checks) =>
      if c < |st.connections| then st.connections[c := Received(st.connections[c], r, checks)] else st.connections
    case End(c) =>
      if c < |st.connections| then st.connections[c := st.connections[c].(closing := true)] else st.connections
    case _ => st.connections
  }

  function NextTasks(thumbprint: string -> string, st: Gateway, step: Step): seq<Task> {
    match step
    case StartCreate(c) =>
      if Takes(st, c) then st.tasks + [Creating(CtxOf(st.connections[c], c))] else st.tasks
    case StartActivate(c, token, signed) =>
      if Takes(st, c) && token in st.sessions
         && MayActivate(thumbprint, CtxOf(st.connections[c], c), st.sessions[token], signed)
      then st.tasks + [Activating(CtxOf(st.connections[c], c), token)]
      else st.tasks
    case FinishCreate(i, _) => if i < |st.tasks| && st.tasks[i].Creating? then Without(st.tasks, i) else st.tasks
    case FinishActivate(i, _) => if i < |st.tasks| && st.tasks[i].Activating? then Without(st.tasks, i) else st.tasks
    case _ => st.tasks
  }

  function NextSessions(st: Gateway, step: Step): map<string, Session> {
    match step
    case FinishCreate(i, answer) =>
      if i < |st.tasks| && st.tasks[i].Creating? && answer.Some?
      then
        var ctx := st.tasks[i].ctx;
        st.sessions[answer.value := Session(ctx.certificate, ctx.policy, ctx.mode, ctx.connection)]
      else st.sessions
    case FinishActivate(i, accepted) =>
      if i < |st.tasks| && st.tasks[i].Activating? && accepted
      then TakenOver(st.sessions, st.tasks[i].token, st.tasks[i].ctx.connection)
      else st.sessions
    case CloseSession(c, token) => WithoutOwned(st.sessions, token, c)
    case Forget(token) => st.sessions - {token}
    case _ => st.sessions
  }

  function Next(thumbprint: string -> string, st: Gateway, step: Step): Gateway {
    Gateway(NextConnections(st, step), NextSessions(st, step), NextTasks(thumbprint, st, step))
  }

  function Run(thumbprint: string -> string, st: Gateway, steps: seq<Step>): Gateway
    decreases steps
  {
    if steps == [] then st else Run(thumbprint, Next(thumbprint, st, steps[0]), steps[1..])
  }

  // ----- what every run keeps -----

  /** At least the security the session was created with, and its client. */
  predicate SecureEnough(thumbprint: string -> string, ctx: Ctx, s: Session) {
    && SecurityRank(ctx.policy, ctx.mode) >= SecurityRank(s.policy, s.mode)
    && (ctx.policy.Secure? ==> SameClient(thumbprint, ctx, s))
  }

  predicate OfIssued(connections: seq<Channel>, ctx: Ctx) {
    && ctx.connection < |connections| && connections[ctx.connection].issued
    && ctx == CtxOf(connections[ctx.connection], ctx.connection)
  }

  ghost predicate OwnerIsSecure(thumbprint: string -> string, connections: seq<Channel>, s: Session) {
    && s.owner < |connections| && connections[s.owner].issued
    && SecureEnough(thumbprint, CtxOf(connections[s.owner], s.owner), s)
  }

  ghost predicate OwnersAreSecure(thumbprint: string -> string, st: Gateway) {
    forall t :: t in st.sessions ==> OwnerIsSecure(thumbprint, st.connections, st.sessions[t])
  }

  ghost predicate TasksAreCurrent(thumbprint: string -> string, st: Gateway) {
    forall task :: task in st.tasks ==>
      && OfIssued(st.connections, task.ctx)
      && (task.Activating? && task.token in st.sessions ==> SecureEnough(thumbprint, task.ctx, st.sessions[task.token]))
  }

  ghost predicate AllBound(connections: seq<Channel>) {
    forall c :: 0 <= c < |connections| ==> WellBound(connections[c])
  }

  ghost predicate Safe(thumbprint: string -> string, st: Gateway) {
    && AllBound(st.connections)
    && OwnersAreSecure(thumbprint, st) && TasksAreCurrent(thumbprint, st)
  }

  /** Every channel that was issued is as it was. */
  ghost predicate ChannelsStay(before: seq<Channel>, after: seq<Channel>) {
    && |before| <= |after|
    && AllBound(after)
    && forall c :: 0 <= c < |before| && before[c].issued ==>
         after[c].issued && CtxOf(after[c], c) == CtxOf(before[c], c)
  }

  lemma ConnectionsStay(st: Gateway, step: Step)
    requires AllBound(st.connections)
    ensures ChannelsStay(st.connections, NextConnections(st, step))
  {
    if step.Open? && step.c < |st.connections| {
      var ch := st.connections[step.c];
      if ch.issued {
        IssuedChannelNeverChanges(ch, step.request, step.checks);
      } else {
        IssuedOnlyByTheRules(ch, step.request, step.checks);
      }
    }
  }

  /** A connection that has ended takes no more requests, whatever comes. */
  lemma {:induction false} EndedTakesNothing(thumbprint: string -> string, st: Gateway, steps: seq<Step>, c: nat)
    requires c < |st.connections| && st.connections[c].closing
    ensures !Takes(Run(thumbprint, st, steps), c)
    ensures c < |Run(thumbprint, st, steps).connections| && Run(thumbprint, st, steps).connections[c].closing
    decreases steps
  {
    if steps != [] {
      EndedTakesNothing(thumbprint, Next(thumbprint, st, steps[0]), steps[1..], c);
    }
  }

  lemma EndTakesNothing(thumbprint: string -> string, st: Gateway, steps: seq<Step>, c: nat)
    requires c < |st.connections|
    ensures !Takes(Run(thumbprint, Next(thumbprint, st, End(c)), steps), c)
  {
    EndedTakesNothing(thumbprint, Next(thumbprint, st, End(c)), steps, c);
  }

  /** The answer of the server makes a session with the security and the client
      certificate of the connection that asked, which owns it; and no step ever
      changes these of a session, but a new session under its token. */
  lemma SessionsKeepTheirOrigin(thumbprint: string -> string, st: Gateway, step: Step, token: string)
    requires Safe(thumbprint, st) && token in Next(thumbprint, st, step).sessions
    ensures var s := Next(thumbprint, st, step).sessions[token];
      if step.FinishCreate? && step.answer == Some(token) && step.i < |st.tasks| && st.tasks[step.i].Creating?
      then
        && s.owner < |st.connections| && st.tasks[step.i].ctx.connection == s.owner
        && var ch := st.connections[s.owner];
           && ch.issued && s.policy == ch.policy && s.mode == ch.mode
           && s.certificate == if ch.policy.Secure? then Some(ch.certificate) else None
      else
        && token in st.sessions
        && s.(owner := st.sessions[token].owner) == st.sessions[token]
        && (s.owner != st.sessions[token].owner ==>
              && step.FinishActivate? && step.accepted && step.i < |st.tasks| && st.tasks[step.i].Activating?
              && st.tasks[step.i].token == token && st.tasks[step.i].ctx.connection == s.owner)
  {
    if step.FinishCreate? && step.i < |st.tasks| {
      assert st.tasks[step.i] in st.tasks;
    }
  }

  /** A task that waits for the server ends with its own answer, and only so. */
  lemma TasksEndWithTheirAnswer(thumbprint: string -> string, st: Gateway, i: nat, answer: Option<string>,
                                accepted: bool)
    requires i < |st.tasks|
    ensures var rest := st.tasks[..i] + st.tasks[i + 1..];
      && Next(thumbprint, st, FinishCreate(i, answer)).tasks == (if st.tasks[i].Creating? then rest else st.tasks)
      && Next(thumbprint, st, FinishActivate(i, accepted)).tasks == (if st.tasks[i].Activating? then rest else st.tasks)
  {
  }

  lemma StepKeepsOwners(thumbprint: string -> string, st: Gateway, step: Step)
    requires Safe(thumbprint, st)
    ensures OwnersAreSecure(thumbprint, Next(thumbprint, st, step))
  {
    ConnectionsStay(st, step);
    var after := Next(thumbprint, st, step);
    forall t | t in after.sessions ensures OwnerIsSecure(thumbprint, after.connections, after.sessions[t]) {
      if t in st.sessions && st.sessions[t] == after.sessions[t] {
        assert OwnerIsSecure(thumbprint, st.connections, st.sessions[t]);
      } else {
        assert st.tasks[step.i] in st.tasks;
      }
    }
  }

  /** The session that an answer of the server creates. */
  function Created(ctx: Ctx): Session {
    Session(ctx.certificate, ctx.policy, ctx.mode, ctx.connection)
  }

  predicate Creates(st: Gateway, step: Step) {
    step.FinishCreate? && step.answer.Some? && step.i < |st.tasks| && st.tasks[step.i].Creating?
  }

  /** The task waits to take over the session that the step creates, from a
      connection that is not secure enough for it. */
  predicate Endangers(thumbprint: string -> string, st: Gateway, step: Step, task: Task)
    requires Creates(st, step)
  {
    && task.Activating? && task.token == step.answer.value
    && !SecureEnough(thumbprint, task.ctx, Created(st.tasks[step.i].ctx))
  }

  /** The server gives out a token while an activation with it is waiting, on a
      connection that is not secure enough for the new session. */
  predicate HarmfulAnswer(thumbprint: string -> string, st: Gateway, step: Step) {
    Creates(st, step) && exists task :: task in st.tasks && Endangers(thumbprint, st, step, task)
  }

  lemma StepKeepsTasks(thumbprint: string -> string, st: Gateway, step: Step)
    requires Safe(thumbprint, st) && !HarmfulAnswer(thumbprint, st, step)
    ensures TasksAreCurrent(thumbprint, Next(thumbprint, st, step))
  {
    ConnectionsStay(st, step);
    var after := Next(thumbprint, st, step);
    forall task | task in after.tasks
      ensures OfIssued(after.connections, task.ctx)
      ensures task.Activating? && task.token in after.sessions ==>
                SecureEnough(thumbprint, task.ctx, after.sessions[task.token])
    {
      if task !in st.tasks {
        assert step.StartCreate? || step.StartActivate?;
      } else if Creates(st, step) {
        assert !Endangers(thumbprint, st, step, task);
      }
    }
  }

  lemma HarmfulAnswerStays(thumbprint: string -> string, st: Gateway, step: Step)
    requires HarmfulAnswer(thumbprint, st, step)
    ensures !TasksAreCurrent(thumbprint, Next(thumbprint, st, step))
  {
    var task :| task in st.tasks && Endangers(thumbprint, st, step, task);
    var j :| 0 <= j < |st.tasks| && st.tasks[j] == task;
    var after := Next(thumbprint, st, step);
    assert after.tasks[if j < step.i then j else j - 1] == task;
    assert task in after.tasks && after.sessions[task.token] == Created(st.tasks[step.i].ctx);
  }

  /** A step keeps the sessions safe exactly if it is not a harmful answer. */
  lemma StepStaysSafeIff(thumbprint: string -> string, st: Gateway, step: Step)
    requires Safe(thumbprint, st)
    ensures Safe(thumbprint, Next(thumbprint, st, step)) <==> !HarmfulAnswer(thumbprint, st, step)
  {
    ConnectionsStay(st, step);
    StepKeepsOwners(thumbprint, st, step);
    if HarmfulAnswer(thumbprint, st, step) {
      HarmfulAnswerStays(thumbprint, st, step);
    } else {
      StepKeepsTasks(thumbprint, st, step);
    }
  }

  ghost predicate AlwaysSafe(thumbprint: string -> string, st: Gateway, steps: seq<Step>)
    decreases steps
  {
    && Safe(thumbprint, st)
    && (steps != [] ==> AlwaysSafe(thumbprint, Next(thumbprint, st, steps[0]), steps[1..]))
  }

  predicate SomeHarmfulAnswer(thumbprint: string -> string, st: Gateway, steps: seq<Step>)
    decreases steps
  {
    steps != [] && (HarmfulAnswer(thumbprint, st, steps[0])
                    || SomeHarmfulAnswer(thumbprint, Next(thumbprint, st, steps[0]), steps[1..]))
  }

  lemma {:induction false} RunStaysSafeIff(thumbprint: string -> string, st: Gateway, steps: seq<Step>)
    requires Safe(thumbprint, st)
    ensures AlwaysSafe(thumbprint, st, steps) <==> !SomeHarmfulAnswer(thumbprint, st, steps)
    decreases steps
  {
    if steps != [] {
      StepStaysSafeIff(thumbprint, st, steps[0]);
      if Safe(thumbprint, Next(thumbprint, st, steps[0])) {
        RunStaysSafeIff(thumbprint, Next(thumbprint, st, steps[0]), steps[1..]);
      }
    }
  }

  /** Over every run, each session and each activation that waits is with a
      connection secure enough for it, exactly if the server never gives out a
      token while an activation with it waits on a connection that is not secure
      enough for the new session. */
  lemma SessionsAreSafeIff(thumbprint: string -> string, steps: seq<Step>)
    ensures AlwaysSafe(thumbprint, EMPTY, steps) <==> !SomeHarmfulAnswer(thumbprint, EMPTY, steps)
  {
    RunStaysSafeIff(thumbprint, EMPTY, steps);
  }

  lemma {:induction false} SafeInTheEnd(thumbprint: string -> string, st: Gateway, steps: seq<Step>)
    requires AlwaysSafe(thumbprint, st, steps)
    ensures Safe(thumbprint, Run(thumbprint, st, steps))
    decreases steps
  {
    if steps != [] {
      SafeInTheEnd(thumbprint, Next(thumbprint, st, steps[0]), steps[1..]);
    }
  }

  /** Then in every reachable state the connection a session belongs to is at
      least as secure as the one the session was created on, and over a secure
      channel it presents the same client certificate. */
  lemma SessionsKeepTheirSecurity(thumbprint: string -> string, steps: seq<Step>, token: string)
    requires !SomeHarmfulAnswer(thumbprint, EMPTY, steps)
    ensures var st := Run(thumbprint, EMPTY, steps);
      token in st.sessions ==>
        && st.sessions[token].owner < |st.connections|
        && var (s, ch) := (st.sessions[token], st.connections[st.sessions[token].owner]);
           && ch.issued
           && SecurityRank(ch.policy, ch.mode) >= SecurityRank(s.policy, s.mode)
           && (s.policy.Secure? && s.mode == SignAndEncrypt ==> ch.policy.Secure? && ch.mode == SignAndEncrypt)
           && (s.policy.Secure? && s.mode == Sign ==> ch.policy.Secure? && (ch.mode == Sign || ch.mode == SignAndEncrypt))
           && (ch.policy.Secure? ==> s.certificate.Some? && thumbprint(s.certificate.value) == thumbprint(ch.certificate))
  {
    SessionsAreSafeIff(thumbprint, steps);
    SafeInTheEnd(thumbprint, EMPTY, steps);
    var st := Run(thumbprint, EMPTY, steps);
    assert token in st.sessions ==> OwnerIsSecure(thumbprint, st.connections, st.sessions[token]);
  }

  /** A harmful answer does harm: when the activation then succeeds, the new
      session belongs to a connection that is not secure enough for it. */
  lemma HarmfulAnswerLosesSecurity(thumbprint: string -> string, st: Gateway, step: Step)
    requires Safe(thumbprint, st) && HarmfulAnswer(thumbprint, st, step)
    ensures exists i :: !OwnersAreSecure(thumbprint,
                          Next(thumbprint, Next(thumbprint, st, step), FinishActivate(i, true)))
  {
    var task :| task in st.tasks && Endangers(thumbprint, st, step, task);
    var j :| 0 <= j < |st.tasks| && st.tasks[j] == task;
    var i := if j < step.i then j else j - 1;
    TakenOverIsInsecure(thumbprint, st, step, task, i);
  }

  lemma TakenOverIsInsecure(thumbprint: string -> string, st: Gateway, step: Step, task: Task, i: nat)
    requires Safe(thumbprint, st) && Creates(st, step) && task in st.tasks && Endangers(thumbprint, st, step, task)
    requires i < |Without(st.tasks, step.i)| && Without(st.tasks, step.i)[i] == task
    ensures !OwnersAreSecure(thumbprint, Next(thumbprint, Next(thumbprint, st, step), FinishActivate(i, true)))
  {
    var after := Next(thumbprint, Next(thumbprint, st, step), FinishActivate(i, true));
    var s := Created(st.tasks[step.i].ctx).(owner := task.ctx.connection);
    assert OfIssued(st.connections, task.ctx);
    assert after.sessions[task.token] == s && after.connections == st.connections;
    assert !SecureEnough(thumbprint, task.ctx, s);
    assert !OwnerIsSecure(thumbprint, after.connections, s);
  }

  // ----- a run with a harmful answer -----

  const MAIN: string := "token"

  function Insecure(): OpenRequest {
    OpenRequest(NoSecurity, "", false, Unsecured, "")
  }

  function Encrypted(): OpenRequest {
    OpenRequest(Secure("Basic256Sha256"), "client", false, SignAndEncrypt, "nonce")
  }

  function TwoChannels(): seq<Step> {
    var fine := Checks(true, true, true, Fine);
    [Connect, Open(0, Insecure(), fine), Connect, Open(1, Encrypted(), fine)]
  }

  /** An unsecured session is closed while its activation waits, and the server
      gives its token to a new, encrypted session. */
  function TokenReused(): seq<Step> {
    [StartCreate(0), FinishCreate(0, Some(MAIN)), StartActivate(0, MAIN, false), CloseSession(0, MAIN),
     StartCreate(1), FinishCreate(1, Some(MAIN)), FinishActivate(0, true)]
  }

  /** If the server reuses a token in that window, the encrypted session ends up
      with the unsecured connection. */
  lemma ReusedTokenLosesSecurity(thumbprint: string -> string)
    ensures var st := Run(thumbprint, EMPTY, TwoChannels() + TokenReused());
      && SomeHarmfulAnswer(thumbprint, EMPTY, TwoChannels() + TokenReused())
      && MAIN in st.sessions && st.sessions[MAIN].owner == 0 && |st.connections| == 2
      && SecurityRank(st.connections[0].policy, st.connections[0].mode)
           < SecurityRank(st.sessions[MAIN].policy, st.sessions[MAIN].mode)
  {
    RunInTwo(thumbprint, EMPTY, TwoChannels(), TokenReused());
    ChannelsOpen(thumbprint);
    TokenIsTaken(thumbprint);
  }

  /** The two channels once they are open. */
  function Both(): seq<Channel> {
    [Channel(true, false, NoSecurity, Unsecured, "", "", 1, Some(Binding(NoSecurity, ""))),
     Channel(true, false, Secure("Basic256Sha256"), SignAndEncrypt, "client", "nonce", 1,
             Some(Binding(Secure("Basic256Sha256"), "client")))]
  }

  /** The states a run goes through. */
  ghost predicate Path(thumbprint: string -> string, states: seq<Gateway>, steps: seq<Step>) {
    |states| == |steps| + 1 && forall i :: 0 <= i < |steps| ==> states[i + 1] == Next(thumbprint, states[i], steps[i])
  }

  lemma {:induction false} PathIsRun(thumbprint: string -> string, states: seq<Gateway>, steps: seq<Step>)
    requires Path(thumbprint, states, steps)
    ensures Run(thumbprint, states[0], steps) == Last(states)
    ensures (exists i :: 0 <= i < |steps| && HarmfulAnswer(thumbprint, states[i], steps[i])) ==>
              SomeHarmfulAnswer(thumbprint, states[0], steps)
    decreases steps
  {
    if steps != [] {
      assert Path(thumbprint, states[1..], steps[1..]);
      PathIsRun(thumbprint, states[1..], steps[1..]);
      if i :| 0 <= i < |steps| && HarmfulAnswer(thumbprint, states[i], steps[i]) {
        assert i > 0 ==> HarmfulAnswer(thumbprint, states[1..][i - 1], steps[1..][i - 1]);
      }
    }
  }

  lemma ChannelsOpen(thumbprint: string -> string)
    ensures Run(thumbprint, EMPTY, TwoChannels()) == Gateway(Both(), map[], [])
  {
    var states := [EMPTY, Gateway([UNOPENED], map[], []), Gateway([Both()[0]], map[], []),
                   Gateway([Both()[0], UNOPENED], map[], []), Gateway(Both(), map[], [])];
    PathIsRun(thumbprint, states, TwoChannels());
  }

  /** The states on the way, when the token is given out again. */
  function Reusing(): seq<Gateway> {
    var ctx0, ctx1 := CtxOf(Both()[0], 0), CtxOf(Both()[1], 1);
    var s0 := Session(None, NoSecurity, Unsecured, 0);
    var s1 := Session(Some("client"), Both()[1].policy, SignAndEncrypt, 1);
    var waiting := Activating(ctx0, MAIN);
    [Gateway(Both(), map[], []),
     Gateway(Both(), map[], [Creating(ctx0)]),
     Gateway(Both(), map[MAIN := s0], []),
     Gateway(Both(), map[MAIN := s0], [waiting]),
     Gateway(Both(), map[], [waiting]),
     Gateway(Both(), map[], [waiting, Creating(ctx1)]),
     Gateway(Both(), map[MAIN := s1], [waiting]),
     Gateway(Both(), map[MAIN := s1.(owner := 0)], [])]
  }

  lemma ReusingBegins(thumbprint: string -> string, i: nat)
    requires i < 4
    ensures Reusing()[i + 1] == Next(thumbprint, Reusing()[i], TokenReused()[i])
  {
  }

  lemma ReusingEnds(thumbprint: string -> string, i: nat)
    requires 4 <= i < 7
    ensures Reusing()[i + 1] == Next(thumbprint, Reusing()[i], TokenReused()[i])
  {
  }

  lemma AnswerIsHarmful(thumbprint: string -> string)
    ensures HarmfulAnswer(thumbprint, Reusing()[5], TokenReused()[5])
  {
    var st, step := Reusing()[5], TokenReused()[5];
    assert st.tasks[0] in st.tasks && Creates(st, step) && Endangers(thumbprint, st, step, st.tasks[0]);
  }

  lemma TokenIsTaken(thumbprint: string -> string)
    ensures var st := Run(thumbprint, Reusing()[0], TokenReused());
      && st.connections == Both() && MAIN in st.sessions && st.sessions[MAIN].owner == 0
      && st.sessions[MAIN].policy == Both()[1].policy && st.sessions[MAIN].mode == SignAndEncrypt
    ensures SomeHarmfulAnswer(thumbprint, Reusing()[0], TokenReused())
  {
    var states, steps := Reusing(), TokenReused();
    forall i | 0 <= i < 7 ensures states[i + 1] == Next(thumbprint, states[i], steps[i]) {
      if i < 4 {
        ReusingBegins(thumbprint, i);
      } else {
        ReusingEnds(thumbprint, i);
      }
    }
    AnswerIsHarmful(thumbprint);
    PathIsRun(thumbprint, states, steps);
  }

  lemma {:induction false} RunInTwo(thumbprint: string -> string, st: Gateway, first: seq<Step>, second: seq<Step>)
    ensures Run(thumbprint, st, first + second) == Run(thumbprint, Run(thumbprint, st, first), second)
    ensures SomeHarmfulAnswer(thumbprint, Run(thumbprint, st, first), second) ==>
              SomeHarmfulAnswer(thumbprint, st, first + second)
    decreases first
  {
    if first == [] {
      assert first + second == second;
    } else {
      assert (first + second)[1..] == first[1..] + second;
      RunInTwo(thumbprint, Next(thumbprint, st, first[0]), first[1..], second);
    }
  }
}
