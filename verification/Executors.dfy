/**
 * Concurrent execution of commands on the agent (agent/internal/action/executor.go). Every call
 * of Execute is a thread with a program counter; a step is one stretch between two points where
 * another goroutine can get in: a journal call, a claim, a lock, the action itself.
 */
module Executors {
  import opened Basics
  import opened Journals

  datatype Command = Command(request: string, action: Action)

  datatype Result = Result(state: string, code: string, message: string, payload: string, finishedAt: int)

  function EntryOf(c: Command, r: Result): Entry {
    Entry(c.request, c.action, r.state, r.code, r.message, r.payload, r.finishedAt)
  }

  /** fromJournal */
  function ResultOf(e: Entry): Result {
    Result(e.state, e.code, e.message, e.result, e.finishedAt)
  }

  datatype Pc =
    | Looking                       // first journal lookup
    | Validating
    | Refusing(refused: Result)     // a failed validation is about to be recorded
    | Claiming
    | Locking                       // waiting for the state-change mutex
    | LookingAgain                  // second lookup, mutex held
    | Starting
    | Running
    | Recording(finished: Result)
    | Unlocking(unlocked: Result)
    | Releasing(released: Result)
    | Done(result: Result)

  datatype Thread = Thread(cmd: Command, pc: Pc)

  datatype Start = Start(thread: nat, request: string)

  /** `byRun` and `starts` are history: which journal entries a run wrote, and every start of an action. */
  datatype State = State(
    threads: map<nat, Thread>,
    active: set<string>,
    holder: Option<nat>,
    journal: seq<Entry>,
    byRun: set<string>,
    starts: seq<Start>)

  const IDLE := State(map[], {}, None, [], {}, [])

  /** What the surroundings decide: the validator, the action itself, and the disk. */
  datatype Choice = Choice(refusal: Option<Result>, outcome: Result, write: Write)

  datatype Event =
    | Spawn(thread: nat, cmd: Command)
    | Advance(thread: nat, choice: Choice)
    | Retire(thread: nat)
    | Restart(fileLost: bool)

  function Conflicting(now: int): Result {
    Result("failed", "request_conflict", "request_id is already associated with a different action", "", now)
  }

  function InProgress(now: int): Result {
    Result("running", "request_in_progress", "request is already executing", "", now)
  }

  /** The result of a call whose record could not be written. */
  function Unrecorded(r: Result, ran: bool): Result {
    if ran then r.(state := "failed", code := "journal_failed",
                   message := "action completed but terminal result could not be persisted")
    else r.(code := "journal_failed", message := "invalid request could not be persisted")
  }

  predicate PersistOk(o: Outcome) {
    o.Recorded? || o.Already?
  }

  /** ValidateCommand: an action outside the catalogue is always refused, the rest is up to the surroundings. */
  function Refusal(c: Command, ch: Choice): Option<Result> {
    if ch.refusal.Some? then Some(ch.refusal.value.(state := "failed"))
    else if c.action == Other("") then
      Some(Result("failed", "invalid_parameters", "action is required", "null", ch.outcome.finishedAt))
    else if !Supported(c.action) then
      Some(Result("failed", "unsupported_action", "action is not supported by this agent", "null",
                  ch.outcome.finishedAt))
    else None
  }

  function At(s: State, t: nat, pc: Pc): State
    requires t in s.threads
  {
    s.(threads := s.threads[t := s.threads[t].(pc := pc)])
  }

  /** persist: the journal's Record, remembering whether a run wrote the entry. */
  function Persist(cfg: Config, s: State, c: Command, r: Result, ran: bool, write: Write): State {
    var e := EntryOf(c, r);
    var wrote := RecordOutcome(cfg, s.journal, e, write).Recorded?;
    s.(journal := RecordEntries(cfg, s.journal, e, write),
       byRun := if !wrote then s.byRun else if ran then s.byRun + {c.request} else s.byRun - {c.request})
  }

  function Persisted(cfg: Config, s: State, c: Command, r: Result, ran: bool, write: Write): Result {
    if PersistOk(RecordOutcome(cfg, s.journal, EntryOf(c, r), write)) then r else Unrecorded(r, ran)
  }

  /** One step of thread `t`; a thread waiting for the mutex does not move while it is held. */
  function Step(cfg: Config, s: State, t: nat, ch: Choice): State
    requires t in s.threads
  {
    var c := s.threads[t].cmd;
    var id := c.request;
    match s.threads[t].pc
    case Looking =>
      if Holds(s.journal, id) then
        var e := s.journal[Find(s.journal, id)];
        At(s, t, Done(if e.action != c.action then Conflicting(ch.outcome.finishedAt) else ResultOf(e)))
      else At(s, t, Validating)
    case Validating =>
      At(s, t, if Refusal(c, ch).Some? then Refusing(Refusal(c, ch).value) else Claiming)
    case Refusing(r) =>
      At(Persist(cfg, s, c, r, false, ch.write), t, Done(Persisted(cfg, s, c, r, false, ch.write)))
    case Claiming =>
      if id in s.active then At(s, t, Done(InProgress(ch.outcome.finishedAt)))
      else At(s.(active := s.active + {id}), t, if StateChanging(c.action) then Locking else Starting)
    case Locking =>
      if s.holder.None? then At(s.(holder := Some(t)), t, LookingAgain) else s
    case LookingAgain =>
      if Holds(s.journal, id) then At(s, t, Unlocking(ResultOf(s.journal[Find(s.journal, id)])))
      else At(s, t, Starting)
    case Starting =>
      At(s.(starts := s.starts + [Start(t, id)]), t, Running)
    case Running =>
      At(s, t, Recording(ch.outcome))
    case Recording(r) =>
      var done := Persisted(cfg, s, c, r, true, ch.write);
      At(Persist(cfg, s, c, r, true, ch.write), t,
         if StateChanging(c.action) then Unlocking(done) else Releasing(done))
    case Unlocking(r) =>
      At(s.(holder := None), t, Releasing(r))
    case Releasing(r) =>
      At(s.(active := s.active - {id}), t, Done(r))
    case Done(_) => s
  }

  function Next(cfg: Config, s: State, ev: Event): State {
    match ev
    case Spawn(t, c) => if t in s.threads then s else s.(threads := s.threads[t := Thread(c, Looking)])
    case Advance(t, ch) => if t in s.threads then Step(cfg, s, t, ch) else s
    case Retire(t) =>
      if t in s.threads && s.threads[t].pc.Done? then s.(threads := s.threads - {t}) else s
    case Restart(fileLost) =>
      s.(threads := map[], active := {}, holder := None, journal := if fileLost then [] else s.journal)
  }

  function Run(cfg: Config, events: seq<Event>): State {
    if events == [] then IDLE else Next(cfg, Run(cfg, events[..|events| - 1]), events[|events| - 1])
  }

  /** Between claim and release. */
  predicate Claimed(pc: Pc) {
    pc.Locking? || pc.LookingAgain? || pc.Starting? || pc.Running? || pc.Recording? || pc.Unlocking? || pc.Releasing?
  }

  /** Inside the state-change mutex. */
  predicate InLock(th: Thread) {
    StateChanging(th.cmd.action) &&
    (th.pc.LookingAgain? || th.pc.Starting? || th.pc.Running? || th.pc.Recording? || th.pc.Unlocking?)
  }

  predicate NeedsLock(pc: Pc, a: Action) {
    pc.Locking? || pc.LookingAgain? || pc.Unlocking? ==> StateChanging(a)
  }

  predicate Owns(s: State, t: nat, id: string) {
    t in s.threads && Claimed(s.threads[t].pc) && s.threads[t].cmd.request == id
  }

  ghost predicate ClaimsOk(s: State) {
    && (forall t :: t in s.threads && Claimed(s.threads[t].pc) ==> s.threads[t].cmd.request in s.active)
    && (forall t, u | t in s.threads && u in s.threads && Claimed(s.threads[t].pc) && Claimed(s.threads[u].pc) ::
          s.threads[t].cmd.request == s.threads[u].cmd.request ==> t == u)
    && (forall id :: id in s.active ==> exists t :: Owns(s, t, id))
  }

  ghost predicate LockOk(s: State) {
    && (forall t :: t in s.threads && InLock(s.threads[t]) ==> s.holder == Some(t))
    && (s.holder.Some? ==> s.holder.value in s.threads && InLock(s.threads[s.holder.value]))
    && (forall t :: t in s.threads ==> NeedsLock(s.threads[t].pc, s.threads[t].cmd.action))
  }

  /** The journal retains an entry for `id` that a run of `id` wrote. */
  predicate RetainedRun(s: State, id: string) {
    Holds(s.journal, id) && id in s.byRun
  }

  ghost predicate StartsOk(s: State) {
    forall t :: t in s.threads && s.threads[t].pc.Starting? && StateChanging(s.threads[t].cmd.action)
      ==> !RetainedRun(s, s.threads[t].cmd.request)
  }

  ghost predicate Inv(cfg: Config, s: State) {
    ClaimsOk(s) && LockOk(s) && StartsOk(s) && EntriesOk(cfg, s.journal)
  }
}
