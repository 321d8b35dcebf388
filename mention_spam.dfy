/** The listener run when a member's message takes them over the guild's
    mention-spam threshold: while it holds one of the guild's moderation locks
    it bans the author, tells the channel, forgets the author's mention
    counter and files a Ban moderation case. */
module MentionSpam {
  import opened Common

  /** The language keys the listener translates. */
  datatype TextKey = NoMentionSpamFooter | NoMentionSpamMessage | NoMentionSpamModerationLog

  /** The interpolation arguments passed with a key. */
  datatype TextArgs = NoArgs | UserArg(user: Snowflake) | ThresholdArg(threshold: int)

  /** The guild's language, `t(key, args)`; its texts are not modelled. */
  type Translator = (TextKey, TextArgs) -> string

  /** Moderation case type codes; this listener only files bans. */
  datatype TypeCode = Ban

  /** The case handed to the moderation manager. */
  datatype ModerationCase = ModerationCase(userId: Snowflake, moderatorId: Snowflake, caseType: TypeCode, reason: string)

  /** The parts of the offending message the listener reads. */
  datatype SpamMessage = SpamMessage(authorId: Snowflake, channelId: Snowflake)

  /** The threshold and language read from the guild's settings. The
      mention counter read alongside them is part of GuildState. */
  datatype SpamSettings = SpamSettings(threshold: int, t: Translator)

  /** How each awaited call ends: the ban, the notice, and the case creation. */
  datatype StepOutcomes = StepOutcomes(ban: Outcome, notice: Outcome, caseCreation: Outcome)

  /** What the listener does, in the order it does it. A remote call is
      recorded when it is issued, whether or not it then fails. */
  datatype Effect =
    | LockCreated
    | BanRequested(userId: Snowflake, purgeDays: nat, reason: string)
    | NoticeSent(channelId: Snowflake, content: string)
    | CounterDeleted(userId: Snowflake)
    | CaseRequested(entry: ModerationCase)
    | LockReleased

  /** How the promise returned by `run` settles. */
  datatype Completion = Resolved | Rejected(error: string)

  /** One guild's moderation state: the number of moderation locks held, the
      mention counter (`nms`), the cases filed, the errors emitted and the
      effects issued so far. */
  datatype GuildState = GuildState(
    locks: nat,
    nms: map<Snowflake, nat>,
    cases: seq<ModerationCase>,
    diagnostics: seq<Diagnostic>,
    effects: seq<Effect>)

  /** The error a caught rejection emits, if the call was rejected. */
  function Reported(o: Outcome): seq<Diagnostic> {
    if o.Failed? then [ClientError(o.error)] else []
  }

  /** The case the listener files for `message`. */
  function BanCase(message: SpamMessage, settings: SpamSettings, clientId: Snowflake): ModerationCase {
    ModerationCase(message.authorId, clientId, Ban,
                   settings.t(NoMentionSpamModerationLog, ThresholdArg(settings.threshold)))
  }

  /** The effects of one run, in order: the lock, the ban, the notice, the
      counter delete, the case creation and the release in `finally`. */
  function RunEffects(message: SpamMessage, settings: SpamSettings, clientId: Snowflake): seq<Effect> {
    var author := message.authorId;
    [ LockCreated,
      BanRequested(author, 0, settings.t(NoMentionSpamFooter, NoArgs)),
      NoticeSent(message.channelId, settings.t(NoMentionSpamMessage, UserArg(author))),
      CounterDeleted(author),
      CaseRequested(BanCase(message, settings, clientId)),
      LockReleased ]
  }

  /** Six elements appended one at a time are the six appended at once. */
  lemma AppendSix<T>(e: seq<T>, a: T, b: T, c: T, d: T, f: T, g: T)
    ensures e + [a] + [b] + [c] + [d] + [f] + [g] == e + [a, b, c, d, f, g]
  {
  }

  /** The guild's state after one run of the listener and how that run settles. */
  function Enforce(s: GuildState, message: SpamMessage, settings: SpamSettings, clientId: Snowflake,
                   o: StepOutcomes): (GuildState, Completion)
  {
    var filed := o.caseCreation.Succeeded?;
    var next := GuildState(
      s.locks,
      s.nms - {message.authorId},
      if filed then s.cases + [BanCase(message, settings, clientId)] else s.cases,
      s.diagnostics + Reported(o.ban) + Reported(o.notice),
      s.effects + RunEffects(message, settings, clientId));
    (next, if filed then Resolved else Rejected(o.caseCreation.error))
  }

  /** The guild's moderation manager and settings, as the listener sees them. */
  class GuildModeration {
    var locks: nat
    var nms: map<Snowflake, nat>
    var cases: seq<ModerationCase>
    var diagnostics: seq<Diagnostic>
    var effects: seq<Effect>

    function State(): GuildState
      reads this
    {
      GuildState(locks, nms, cases, diagnostics, effects)
    }

    constructor (counters: map<Snowflake, nat>)
      ensures State() == GuildState(0, counters, [], [], [])
    {
      locks, nms, cases, diagnostics, effects := 0, counters, [], [], [];
    }

    /** `moderation.createLock()`: takes a lock without waiting for others. */
    method CreateLock()
      modifies this
      ensures State() == old(State()).(locks := old(locks) + 1, effects := old(effects) + [LockCreated])
    {
      locks := locks + 1;
      effects := effects + [LockCreated];
    }

    /** Calling the release function `createLock` returned. */
    method ReleaseLock()
      requires locks > 0
      modifies this
      ensures State() == old(State()).(locks := old(locks) - 1, effects := old(effects) + [LockReleased])
    {
      locks := locks - 1;
      effects := effects + [LockReleased];
    }

    /** `UserListener.run`, from the lock on; `settings` and `clientId` are
        what `readSettings` and `process.env.CLIENT_ID` gave. */
    method Run(message: SpamMessage, settings: SpamSettings, clientId: Snowflake, outcomes: StepOutcomes)
      returns (completion: Completion)
      modifies this
      ensures (State(), completion) == Enforce(old(State()), message, settings, clientId, outcomes)
    {
      ghost var s0 := State();
      var t := settings.t;
      CreateLock();
      // try
      effects := effects + [BanRequested(message.authorId, 0, t(NoMentionSpamFooter, NoArgs))];
      if outcomes.ban.Failed? {
        diagnostics := diagnostics + [ClientError(outcomes.ban.error)];
      } else {
        assert diagnostics + Reported(outcomes.ban) == diagnostics;
      }
      ghost var afterBan := diagnostics;
      effects := effects + [NoticeSent(message.channelId, t(NoMentionSpamMessage, UserArg(message.authorId)))];
      if outcomes.notice.Failed? {
        diagnostics := diagnostics + [ClientError(outcomes.notice.error)];
      } else {
        assert afterBan + Reported(outcomes.notice) == afterBan;
      }
      nms := nms - {message.authorId};
      effects := effects + [CounterDeleted(message.authorId)];
      var reason := t(NoMentionSpamModerationLog, ThresholdArg(settings.threshold));
      var entry := ModerationCase(message.authorId, clientId, Ban, reason);
      effects := effects + [CaseRequested(entry)];
      if outcomes.caseCreation.Succeeded? {
        cases := cases + [entry];
        completion := Resolved;
      } else {
        completion := Rejected(outcomes.caseCreation.error);
      }
      // finally
      ReleaseLock();
      AppendSix(s0.effects, LockCreated, BanRequested(message.authorId, 0, t(NoMentionSpamFooter, NoArgs)),
                NoticeSent(message.channelId, t(NoMentionSpamMessage, UserArg(message.authorId))),
                CounterDeleted(message.authorId), CaseRequested(entry), LockReleased);
      assert diagnostics == s0.diagnostics + Reported(outcomes.ban) + Reported(outcomes.notice);
    }
  }

  // ---------------------------------------------------------------------------
  // Properties of one run
  // ---------------------------------------------------------------------------

  /** Whatever the calls do, the run takes exactly one lock before its first
      remote call and releases exactly that one as its last effect, so the
      number of locks held is what it was. */
  lemma EnforceLockBalanced(s: GuildState, message: SpamMessage, settings: SpamSettings,
                            clientId: Snowflake, o: StepOutcomes)
    ensures var next := Enforce(s, message, settings, clientId, o).0;
      var e := next.effects[|s.effects|..];
      && next.locks == s.locks
      && |e| >= 2 && e[0] == LockCreated && e[|e| - 1] == LockReleased
      && forall k :: 0 < k < |e| - 1 ==> e[k] != LockCreated && e[k] != LockReleased
  {
  }

  /** The run issues the ban (purging 0 days of messages), then the notice,
      then deletes the counter, then requests the Ban case filed by the
      client's user with the threshold reason. */
  lemma EnforceOrder(s: GuildState, message: SpamMessage, settings: SpamSettings,
                     clientId: Snowflake, o: StepOutcomes)
    ensures var next := Enforce(s, message, settings, clientId, o).0;
      var author, t := message.authorId, settings.t;
      next.effects == s.effects + [
        LockCreated,
        BanRequested(author, 0, t(NoMentionSpamFooter, NoArgs)),
        NoticeSent(message.channelId, t(NoMentionSpamMessage, UserArg(author))),
        CounterDeleted(author),
        CaseRequested(ModerationCase(author, clientId, Ban, t(NoMentionSpamModerationLog, ThresholdArg(settings.threshold)))),
        LockReleased ]
  {
  }

  /** No failure stops a later step: the effects issued and the counter map
      left behind are the same for any two combinations of outcomes. */
  lemma EnforceNonAbortive(s: GuildState, message: SpamMessage, settings: SpamSettings,
                           clientId: Snowflake, o1: StepOutcomes, o2: StepOutcomes)
    ensures var a, b := Enforce(s, message, settings, clientId, o1).0, Enforce(s, message, settings, clientId, o2).0;
      a.effects == b.effects && a.nms == b.nms && a.locks == b.locks
  {
  }

  /** A rejected ban and a rejected notice are each emitted as an error, the
      ban's first; nothing else is reported by the run. */
  lemma EnforceReportsFailures(s: GuildState, message: SpamMessage, settings: SpamSettings,
                               clientId: Snowflake, o: StepOutcomes)
    ensures var d := Enforce(s, message, settings, clientId, o).0.diagnostics;
      && (o.ban.Failed? && o.notice.Failed? ==>
            d == s.diagnostics + [ClientError(o.ban.error), ClientError(o.notice.error)])
      && (o.ban.Failed? && o.notice.Succeeded? ==> d == s.diagnostics + [ClientError(o.ban.error)])
      && (o.ban.Succeeded? && o.notice.Failed? ==> d == s.diagnostics + [ClientError(o.notice.error)])
      && (o.ban.Succeeded? && o.notice.Succeeded? ==> d == s.diagnostics)
  {
  }

  /** The author's counter is gone and every other counter is untouched. */
  lemma EnforceClearsCounter(s: GuildState, message: SpamMessage, settings: SpamSettings,
                             clientId: Snowflake, o: StepOutcomes)
    ensures var nms := Enforce(s, message, settings, clientId, o).0.nms;
      && message.authorId !in nms
      && forall k :: k != message.authorId ==> SameEntry(nms, s.nms, k)
  {
  }

  /** A case creation that resolves appends exactly one case: the author,
      banned by the client's user, with the reason derived from the
      threshold. One that rejects appends none and rejects the run with its
      error: the listener has no `catch` around it. */
  lemma EnforceFilesCase(s: GuildState, message: SpamMessage, settings: SpamSettings,
                         clientId: Snowflake, o: StepOutcomes)
    ensures var (next, completion) := Enforce(s, message, settings, clientId, o);
      && (o.caseCreation.Succeeded? ==>
            && completion == Resolved
            && |next.cases| == |s.cases| + 1
            && next.cases[..|s.cases|] == s.cases
            && next.cases[|s.cases|].userId == message.authorId
            && next.cases[|s.cases|].moderatorId == clientId
            && next.cases[|s.cases|].caseType == Ban
            && next.cases[|s.cases|].reason == settings.t(NoMentionSpamModerationLog, ThresholdArg(settings.threshold)))
      && (o.caseCreation.Failed? ==>
            && completion == Rejected(o.caseCreation.error)
            && next.cases == s.cases
            && next.locks == s.locks)
  {
  }

  // ---------------------------------------------------------------------------
  // Many runs in one guild
  // ---------------------------------------------------------------------------

  /** One arrival of the event, with how its calls end. */
  datatype Trigger = Trigger(message: SpamMessage, settings: SpamSettings, clientId: Snowflake, outcomes: StepOutcomes)

  /** The runs for `triggers`, one after the other in arrival order, each
      finishing before the next starts; a rejected run does not stop the
      next. The source's lock does not wait, so it does not enforce this:
      runs that overlap at their awaits may file their cases in another
      order. */
  function EnforceAll(s: GuildState, triggers: seq<Trigger>): GuildState
    decreases |triggers|
  {
    if triggers == [] then s
    else
      var g := triggers[0];
      EnforceAll(Enforce(s, g.message, g.settings, g.clientId, g.outcomes).0, triggers[1..])
  }

  /** The case the run for `g` files, if its case creation resolves. */
  function Filed(g: Trigger): seq<ModerationCase> {
    if g.outcomes.caseCreation.Succeeded? then [BanCase(g.message, g.settings, g.clientId)] else []
  }

  /** The cases the runs for `triggers` file, in arrival order. */
  function FiledCases(triggers: seq<Trigger>): seq<ModerationCase>
    decreases |triggers|
  {
    if triggers == [] then [] else Filed(triggers[0]) + FiledCases(triggers[1..])
  }

  /** What one run adds to the lock effects and to the cases. */
  lemma EnforceStep(s: GuildState, g: Trigger)
    ensures var next := Enforce(s, g.message, g.settings, g.clientId, g.outcomes).0;
      && next.locks == s.locks
      && multiset(next.effects)[LockCreated] == multiset(s.effects)[LockCreated] + 1
      && multiset(next.effects)[LockReleased] == multiset(s.effects)[LockReleased] + 1
      && next.cases == s.cases + Filed(g)
  {
    var e := RunEffects(g.message, g.settings, g.clientId);
    assert multiset(e)[LockCreated] == 1 && multiset(e)[LockReleased] == 1;
  }

  lemma AppendAssociative<T>(a: seq<T>, b: seq<T>, c: seq<T>)
    ensures a + b + c == a + (b + c)
  {
  }

  /** Under any mix of failures, a sequence of runs leaves the lock count as
      it was, takes and releases one lock per run, and files the cases in
      the order the triggers arrived. */
  lemma {:induction false} EnforceAllBalanced(s: GuildState, triggers: seq<Trigger>)
    decreases |triggers|
    ensures var next := EnforceAll(s, triggers);
      && next.locks == s.locks
      && multiset(next.effects)[LockCreated] == multiset(s.effects)[LockCreated] + |triggers|
      && multiset(next.effects)[LockReleased] == multiset(s.effects)[LockReleased] + |triggers|
      && next.cases == s.cases + FiledCases(triggers)
  {
    if triggers != [] {
      var g, rest := triggers[0], triggers[1..];
      var s1 := Enforce(s, g.message, g.settings, g.clientId, g.outcomes).0;
      assert EnforceAll(s, triggers) == EnforceAll(s1, rest);
      EnforceStep(s, g);
      EnforceAllBalanced(s1, rest);
      AppendAssociative(s.cases, Filed(g), FiledCases(rest));
    }
  }
}
