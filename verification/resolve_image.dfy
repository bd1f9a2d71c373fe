/**
 Filesystem.resolveImage of internal/mount/mount.go as concurrent steps: every caller is a
 program counter over the shared image map and the singleflight group.  A step is one critical
 section, or one stretch of work done without the lock.
 */
module ResolveImage {
  import opened Wrappers

  type Hash = string

  /** name.Reference: its printed form, and its digest when it is a digest with a valid hash. */
  datatype Ref = Ref(str: string, digest: Option<Hash>)

  datatype Call = Call(ref: Ref, platform: string) {
    /** The singleflight key. */
    function Key(): string {
      ref.str + "@@" + platform
    }
  }

  /** A resolved image object; id is its identity, digest that of the image it was built from. */
  datatype Resolved = Resolved(id: nat, digest: Hash)

  datatype Outcome = Ok(ri: Resolved) | Failed

  /** A flight is one execution of the function passed to singleflight's Do. */
  datatype Flight = Flight(key: string, leader: nat, outcome: Option<Outcome>)

  /** Where a caller stands. */
  datatype Pc =
    | Start                                   // nothing done yet
    | Enter                                   // about to call sf.Do
    | Resolving(flight: nat)                  // leader: fetching the manifest
    | Recheck(flight: nat, digest: Hash)      // leader: about to look the digest up again
    | Opening(flight: nat, digest: Hash)      // leader: opening layers and merging
    | Publish(flight: nat, built: Resolved)   // leader: about to publish or adopt
    | Finish(flight: nat, outcome: Outcome)   // leader: function returned, flight not yet closed
    | Waiting(flight: nat)                    // follower of a running flight
    | Done(result: Outcome)

  datatype Caller = Caller(call: Call, pc: Pc)

  /** images is f.images; running the singleflight map; flights every flight ever started. */
  datatype State = State(
    callers: seq<Caller>,
    images: map<Hash, Resolved>,
    running: map<string, nat>,
    flights: seq<Flight>,
    nextId: nat
  )

  predicate Init(s: State) {
    s == State([], map[], map[], [], 0)
  }

  function At(s: State, t: nat, pc: Pc): State
    requires t < |s.callers|
  {
    s.(callers := s.callers[t := s.callers[t].(pc := pc)])
  }

  /** A new call of resolveImage. */
  ghost predicate Arrive(s: State, s': State) {
    exists call :: s' == s.(callers := s.callers + [Caller(call, Start)])
  }

  /** Lines 72-81: a digest reference may hit the image map at once. */
  predicate FastPath(s: State, s': State, t: nat) {
    && t < |s.callers| && s.callers[t].pc == Start
    && var d := s.callers[t].call.ref.digest;
       s' == if d.Some? && d.value in s.images then At(s, t, Done(Ok(s.images[d.value]))) else At(s, t, Enter)
  }

  /** Line 83: join the flight of the key, or start one and lead it. */
  predicate EnterGroup(s: State, s': State, t: nat) {
    && t < |s.callers| && s.callers[t].pc == Enter
    && var key := s.callers[t].call.Key();
       s' == if key in s.running then At(s, t, Waiting(s.running[key]))
             else At(s, t, Resolving(|s.flights|))
                    .(running := s.running[key := |s.flights|], flights := s.flights + [Flight(key, t, None)])
  }

  /** Lines 84-87: the registry answers with an image of some digest, or an error. */
  ghost predicate Resolve(s: State, s': State, t: nat) {
    && t < |s.callers| && s.callers[t].pc.Resolving?
    && var f := s.callers[t].pc.flight;
       (s' == At(s, t, Finish(f, Failed)) || exists d :: s' == At(s, t, Recheck(f, d)))
  }

  /** Lines 88-93. */
  predicate CheckAgain(s: State, s': State, t: nat) {
    && t < |s.callers| && s.callers[t].pc.Recheck?
    && var pc := s.callers[t].pc;
       s' == if pc.digest in s.images then At(s, t, Finish(pc.flight, Ok(s.images[pc.digest])))
             else At(s, t, Opening(pc.flight, pc.digest))
  }

  /** Lines 95-100: a fresh object, or an error opening a layer. */
  predicate Build(s: State, s': State, t: nat) {
    && t < |s.callers| && s.callers[t].pc.Opening?
    && var pc := s.callers[t].pc;
       || s' == At(s, t, Finish(pc.flight, Failed))
       || s' == At(s, t, Publish(pc.flight, Resolved(s.nextId, pc.digest))).(nextId := s.nextId + 1)
  }

  /** Lines 102-109: adopt an object published meanwhile, or publish the own one. */
  predicate PublishOrAdopt(s: State, s': State, t: nat) {
    && t < |s.callers| && s.callers[t].pc.Publish?
    && var pc := s.callers[t].pc;
       var d := pc.built.digest;
       s' == if d in s.images then At(s, t, Finish(pc.flight, Ok(s.images[d])))
             else At(s, t, Finish(pc.flight, Ok(pc.built))).(images := s.images[d := pc.built])
  }

  /** singleflight closes the flight: the outcome is fixed and the key freed. */
  predicate Close(s: State, s': State, t: nat) {
    && t < |s.callers| && s.callers[t].pc.Finish?
    && var pc := s.callers[t].pc;
       && pc.flight < |s.flights|
       && s' == At(s, t, Done(pc.outcome))
                  .(running := s.running - {s.callers[t].call.Key()},
                    flights := s.flights[pc.flight := s.flights[pc.flight].(outcome := Some(pc.outcome))])
  }

  /** A follower wakes up once its flight is closed. */
  predicate Wake(s: State, s': State, t: nat) {
    && t < |s.callers| && s.callers[t].pc.Waiting?
    && var f := s.callers[t].pc.flight;
       && f < |s.flights| && s.flights[f].outcome.Some?
       && s' == At(s, t, Done(s.flights[f].outcome.value))
  }

  ghost predicate StepOf(s: State, s': State, t: nat) {
    || FastPath(s, s', t)
    || EnterGroup(s, s', t)
    || Resolve(s, s', t)
    || CheckAgain(s, s', t)
    || Build(s, s', t)
    || PublishOrAdopt(s, s', t)
    || Close(s, s', t)
    || Wake(s, s', t)
  }

  ghost predicate Next(s: State, s': State) {
    Arrive(s, s') || exists t: nat :: t < |s.callers| && StepOf(s, s', t)
  }

  // ---- the invariant ----

  /** The object is the published one of its digest. */
  predicate Published(s: State, o: Outcome) {
    o.Ok? ==> o.ri.digest in s.images && s.images[o.ri.digest] == o.ri
  }

  predicate Leads(pc: Pc) {
    pc.Resolving? || pc.Recheck? || pc.Opening? || pc.Publish? || pc.Finish?
  }

  /** A leading caller is the recorded leader of its key's running, unfinished flight. */
  predicate LeaderOk(s: State, t: nat)
    requires t < |s.callers|
  {
    var c := s.callers[t];
    Leads(c.pc) ==>
      && c.call.Key() in s.running && s.running[c.call.Key()] == c.pc.flight
      && c.pc.flight < |s.flights| && s.flights[c.pc.flight] == Flight(c.call.Key(), t, None)
  }

  predicate CallerOk(s: State, t: nat)
    requires t < |s.callers|
  {
    var c := s.callers[t];
    && LeaderOk(s, t)
    && (c.pc.Finish? ==> Published(s, c.pc.outcome))
    && (c.pc.Done? ==> Published(s, c.pc.result))
    && (c.pc.Waiting? ==> c.pc.flight < |s.flights| && s.flights[c.pc.flight].key == c.call.Key())
  }

  predicate FlightOk(s: State, f: nat)
    requires f < |s.flights|
  {
    var fl := s.flights[f];
    && fl.leader < |s.callers| && s.callers[fl.leader].call.Key() == fl.key
    && match fl.outcome
       case Some(o) => Published(s, o)
       case None =>
         && fl.key in s.running && s.running[fl.key] == f
         && Leads(s.callers[fl.leader].pc) && s.callers[fl.leader].pc.flight == f
  }

  ghost predicate Inv(s: State) {
    && (forall d | d in s.images :: s.images[d].digest == d)
    && (forall t: nat | t < |s.callers| :: CallerOk(s, t))
    && (forall f: nat | f < |s.flights| :: FlightOk(s, f))
    && (forall key | key in s.running :: s.running[key] < |s.flights| && s.flights[s.running[key]].outcome == None)
    && (forall key | key in s.running :: s.flights[s.running[key]].key == key)
  }

  /** Images are only ever added. */
  predicate ImagesGrow(s: State, s': State) {
    forall d | d in s.images :: d in s'.images && s'.images[d] == s.images[d]
  }

  lemma InitInv(s: State)
    requires Init(s)
    ensures Inv(s)
  {
  }

  /** Caller t moves to pc, keeping its flight if it leads one; the shared state stays as it is. */
  ghost predicate Moves(s: State, s': State, t: nat, pc: Pc) {
    && t < |s.callers|
    && s' == At(s, t, pc).(nextId := s'.nextId)
    && Leads(pc) == Leads(s.callers[t].pc)
    && (Leads(pc) ==> pc.flight == s.callers[t].pc.flight)
    && (pc.Finish? ==> Published(s, pc.outcome))
    && (pc.Done? ==> Published(s, pc.result))
    && (pc.Waiting? ==> pc.flight < |s.flights| && s.flights[pc.flight].key == s.callers[t].call.Key())
  }

  lemma MovesInv(s: State, s': State, t: nat, pc: Pc)
    requires Inv(s) && Moves(s, s', t, pc)
    ensures Inv(s') && ImagesGrow(s, s')
  {
    forall u: nat | u < |s'.callers| ensures CallerOk(s', u) {
      assert CallerOk(s, u);
    }
    forall f: nat | f < |s'.flights| ensures FlightOk(s', f) {
      assert FlightOk(s, f);
    }
  }

  /** Steps that move one caller and leave the shared state alone. */
  ghost predicate LocalStep(s: State, s': State, t: nat) {
    FastPath(s, s', t) || Resolve(s, s', t) || CheckAgain(s, s', t) || Build(s, s', t) || Wake(s, s', t)
  }

  lemma LocalInv(s: State, s': State, t: nat)
    requires Inv(s) && t < |s.callers| && LocalStep(s, s', t)
    ensures Inv(s') && ImagesGrow(s, s')
  {
    assert CallerOk(s, t);
    if s.callers[t].pc.Waiting? {
      assert FlightOk(s, s.callers[t].pc.flight);
    }
    assert Moves(s, s', t, s'.callers[t].pc);
    MovesInv(s, s', t, s'.callers[t].pc);
  }

  lemma EnterInv(s: State, s': State, t: nat)
    requires Inv(s) && t < |s.callers| && EnterGroup(s, s', t)
    ensures Inv(s') && ImagesGrow(s, s')
  {
    assert CallerOk(s, t);
    forall u: nat | u < |s'.callers| ensures CallerOk(s', u) {
      assert CallerOk(s, u);
    }
    forall f: nat | f < |s'.flights| ensures FlightOk(s', f) {
      if f < |s.flights| {
        assert FlightOk(s, f);
      }
    }
  }

  lemma PublishInv(s: State, s': State, t: nat)
    requires Inv(s) && t < |s.callers| && PublishOrAdopt(s, s', t)
    ensures Inv(s') && ImagesGrow(s, s')
  {
    assert CallerOk(s, t);
    forall u: nat | u < |s'.callers| ensures CallerOk(s', u) {
      assert CallerOk(s, u);
    }
    forall f: nat | f < |s'.flights| ensures FlightOk(s', f) {
      if f < |s.flights| {
        assert FlightOk(s, f);
      }
    }
  }

  lemma CloseInv(s: State, s': State, t: nat)
    requires Inv(s) && t < |s.callers| && Close(s, s', t)
    ensures Inv(s') && ImagesGrow(s, s')
  {
    assert CallerOk(s, t);
    forall u: nat | u < |s'.callers| ensures CallerOk(s', u) {
      assert CallerOk(s, u);
    }
    forall f: nat | f < |s'.flights| ensures FlightOk(s', f) {
      if f < |s.flights| {
        assert FlightOk(s, f);
      }
    }
  }

  lemma StepInv(s: State, s': State, t: nat)
    requires Inv(s) && t < |s.callers| && StepOf(s, s', t)
    ensures Inv(s') && ImagesGrow(s, s')
  {
    if LocalStep(s, s', t) {
      LocalInv(s, s', t);
    } else if EnterGroup(s, s', t) {
      EnterInv(s, s', t);
    } else if PublishOrAdopt(s, s', t) {
      PublishInv(s, s', t);
    } else {
      CloseInv(s, s', t);
    }
  }

  lemma ArriveInv(s: State, s': State)
    requires Inv(s) && Arrive(s, s')
    ensures Inv(s') && ImagesGrow(s, s')
  {
    forall u: nat | u < |s'.callers| ensures CallerOk(s', u) {
      if u < |s.callers| {
        assert CallerOk(s, u);
      }
    }
    forall f: nat | f < |s'.flights| ensures FlightOk(s', f) {
      assert FlightOk(s, f);
    }
  }

  lemma NextInv(s: State, s': State)
    requires Inv(s) && Next(s, s')
    ensures Inv(s') && ImagesGrow(s, s')
  {
    if Arrive(s, s') {
      ArriveInv(s, s');
    } else {
      var t: nat :| t < |s.callers| && StepOf(s, s', t);
      StepInv(s, s', t);
    }
  }

  // ---- whole runs ----

  ghost predicate NextAt(b: seq<State>, i: nat)
    requires i + 1 < |b|
  {
    Next(b[i], b[i + 1])
  }

  ghost predicate IsRun(b: seq<State>) {
    && b != [] && Init(b[0])
    && forall i: nat | i + 1 < |b| :: NextAt(b, i)
  }

  lemma {:induction false} RunInv(b: seq<State>, i: nat)
    requires IsRun(b) && i < |b|
    ensures Inv(b[i])
  {
    if i == 0 {
      InitInv(b[0]);
    } else {
      RunInv(b, i - 1);
      assert NextAt(b, i - 1);
      NextInv(b[i - 1], b[i]);
    }
  }

  /** images[d] is written at most once in any run, and always holds an object of digest d. */
  lemma {:induction false} ImagesWrittenOnce(b: seq<State>, i: nat, j: nat)
    requires IsRun(b) && i <= j < |b|
    ensures ImagesGrow(b[i], b[j])
    ensures forall d | d in b[j].images :: b[j].images[d].digest == d
    decreases j - i
  {
    RunInv(b, j);
    assert forall d | d in b[j].images :: b[j].images[d].digest == d;
    if i < j {
      hide Next, Inv;
      ImagesWrittenOnce(b, i, j - 1);
      RunInv(b, j - 1);
      assert NextAt(b, j - 1);
      NextInv(b[j - 1], b[j]);
    }
  }

  ghost predicate Returned(s: State, t: nat, ri: Resolved) {
    t < |s.callers| && s.callers[t].pc == Done(Ok(ri))
  }

  /**
   In every interleaving, two calls that succeed with the same digest return the same object,
   whichever path each took and whenever it returned, and that object is the published one.
   */
  lemma CallersAgree(b: seq<State>, i: nat, j: nat, t: nat, u: nat, x: Resolved, y: Resolved)
    requires IsRun(b) && i <= j < |b|
    requires Returned(b[i], t, x) && Returned(b[j], u, y) && x.digest == y.digest
    ensures x == y && x.digest in b[j].images && b[j].images[x.digest] == x
  {
    RunInv(b, i);
    RunInv(b, j);
    assert CallerOk(b[i], t) && CallerOk(b[j], u);
    ImagesWrittenOnce(b, i, j);
  }

  // ---- a call returns the image its flight resolved ----

  /** Caller t leads flight f, which the registry resolved to digest d, or has returned its outcome. */
  predicate Tracks(s: State, t: nat, f: nat, d: Hash) {
    && t < |s.callers| && f < |s.flights|
    && match s.callers[t].pc
       case Recheck(g, e) => g == f && e == d
       case Opening(g, e) => g == f && e == d
       case Publish(g, built) => g == f && built.digest == d
       case Finish(g, o) => g == f && (o.Ok? ==> o.ri.digest == d)
       case Done(o) => s.flights[f].outcome == Some(o) && (o.Ok? ==> o.ri.digest == d)
       case _ => false
  }

  /** Caller u waits for flight f, or has returned its outcome. */
  predicate Follows(s: State, u: nat, f: nat) {
    && u < |s.callers| && f < |s.flights|
    && match s.callers[u].pc
       case Waiting(g) => g == f
       case Done(o) => s.flights[f].outcome == Some(o)
       case _ => false
  }

  /** An upper bound on the steps a caller still has to take. */
  function Rank(pc: Pc): nat {
    match pc
    case Start => 7
    case Enter => 6
    case Resolving(_) => 5
    case Recheck(_, _) => 4
    case Opening(_, _) => 3
    case Publish(_, _) => 2
    case Finish(_, _) => 1
    case Waiting(_) => 1
    case Done(_) => 0
  }

  /** What every step has in common: only its own caller moves, closer to its end, and flights stay but for its own. */
  ghost predicate OwnStep(s: State, s': State, t: nat)
    requires t < |s.callers|
  {
    && |s'.callers| == |s.callers| && s'.callers == s.callers[t := s'.callers[t]]
    && s'.callers[t].call == s.callers[t].call
    && Rank(s'.callers[t].pc) < Rank(s.callers[t].pc)
    && |s.flights| <= |s'.flights|
    && forall f | 0 <= f < |s.flights| && !(s.callers[t].pc.Finish? && s.callers[t].pc.flight == f) :: s'.flights[f] == s.flights[f]
  }

  lemma LocalIsOwn(s: State, s': State, t: nat)
    requires t < |s.callers| && LocalStep(s, s', t)
    ensures OwnStep(s, s', t)
  {
  }

  lemma EnterIsOwn(s: State, s': State, t: nat)
    requires t < |s.callers| && EnterGroup(s, s', t)
    ensures OwnStep(s, s', t)
  {
  }

  lemma PublishIsOwn(s: State, s': State, t: nat)
    requires t < |s.callers| && PublishOrAdopt(s, s', t)
    ensures OwnStep(s, s', t)
  {
  }

  lemma CloseIsOwn(s: State, s': State, t: nat)
    requires t < |s.callers| && Close(s, s', t)
    ensures OwnStep(s, s', t)
  {
  }

  lemma StepIsOwn(s: State, s': State, t: nat)
    requires t < |s.callers| && StepOf(s, s', t)
    ensures OwnStep(s, s', t)
  {
    hide OwnStep, FastPath, Resolve, CheckAgain, Build, Wake, EnterGroup, PublishOrAdopt, Close;
    if LocalStep(s, s', t) {
      LocalIsOwn(s, s', t);
    } else if EnterGroup(s, s', t) {
      EnterIsOwn(s, s', t);
    } else if PublishOrAdopt(s, s', t) {
      PublishIsOwn(s, s', t);
    } else {
      CloseIsOwn(s, s', t);
    }
  }

  /** A closed flight keeps its outcome. */
  lemma OutcomeStands(s: State, s': State, f: nat)
    requires Inv(s) && Next(s, s') && f < |s.flights| && s.flights[f].outcome.Some?
    ensures f < |s'.flights| && s'.flights[f] == s.flights[f]
  {
    hide StepOf;
    if !Arrive(s, s') {
      var t: nat :| t < |s.callers| && StepOf(s, s', t);
      StepIsOwn(s, s', t);
      assert CallerOk(s, t);
    }
  }

  /** A step of one caller leaves the others where they are. */
  lemma OthersStay(s: State, s': State, t: nat, u: nat)
    requires StepOf(s, s', t) && t < |s.callers| && u < |s.callers| && u != t
    ensures u < |s'.callers| && s'.callers[u] == s.callers[u] && |s.flights| <= |s'.flights|
  {
    hide StepOf;
    StepIsOwn(s, s', t);
  }

  lemma TracksOwnStep(s: State, s': State, t: nat, f: nat, d: Hash)
    requires Inv(s) && Tracks(s, t, f, d) && StepOf(s, s', t)
    ensures Tracks(s', t, f, d)
  {
    assert CallerOk(s, t);
  }

  lemma TracksNext(s: State, s': State, t: nat, f: nat, d: Hash)
    requires Inv(s) && Next(s, s') && Tracks(s, t, f, d)
    ensures Tracks(s', t, f, d)
  {
    if s.flights[f].outcome.Some? {
      OutcomeStands(s, s', f);
    }
    if !Arrive(s, s') {
      var u: nat :| u < |s.callers| && StepOf(s, s', u);
      if u == t {
        TracksOwnStep(s, s', t, f, d);
      } else {
        OthersStay(s, s', u, t);
      }
    }
  }

  lemma FollowsNext(s: State, s': State, u: nat, f: nat)
    requires Inv(s) && Next(s, s') && Follows(s, u, f)
    ensures Follows(s', u, f)
  {
    if s.flights[f].outcome.Some? {
      OutcomeStands(s, s', f);
    }
    if !Arrive(s, s') {
      var t: nat :| t < |s.callers| && StepOf(s, s', t);
      if t != u {
        OthersStay(s, s', t, u);
      }
    }
  }

  lemma {:induction false} TracksRun(b: seq<State>, i: nat, j: nat, t: nat, f: nat, d: Hash)
    requires IsRun(b) && i <= j < |b| && Tracks(b[i], t, f, d)
    ensures Tracks(b[j], t, f, d)
    decreases j - i
  {
    hide Next, Inv, Tracks;
    if i < j {
      TracksRun(b, i, j - 1, t, f, d);
      RunInv(b, j - 1);
      assert NextAt(b, j - 1);
      TracksNext(b[j - 1], b[j], t, f, d);
    }
  }

  lemma {:induction false} FollowsRun(b: seq<State>, k: nat, j: nat, u: nat, f: nat)
    requires IsRun(b) && k <= j < |b| && Follows(b[k], u, f)
    ensures Follows(b[j], u, f)
    decreases j - k
  {
    hide Next, Inv, Follows;
    if k < j {
      FollowsRun(b, k, j - 1, u, f);
      RunInv(b, j - 1);
      assert NextAt(b, j - 1);
      FollowsNext(b[j - 1], b[j], u, f);
    }
  }

  /** Whoever has returned with a flight's outcome has the digest the flight's leader tracks. */
  lemma SharedOutcome(s: State, t: nat, u: nat, f: nat, d: Hash, x: Resolved)
    requires Inv(s) && Tracks(s, t, f, d) && (u == t || Follows(s, u, f)) && Returned(s, u, x)
    ensures x.digest == d && d in s.images && s.images[d] == x
  {
    assert CallerOk(s, t) && CallerOk(s, u);
  }

  /**
   In every interleaving, once the registry has resolved flight f to digest d, every successful
   call of that flight, its leader t (re-check, publication or adoption) or a follower u, returns
   the published image of d.
   */
  lemma CallReturnsResolved(b: seq<State>, i: nat, k: nat, j: nat, t: nat, u: nat, f: nat, d: Hash, x: Resolved)
    requires IsRun(b) && i <= j && k <= j < |b|
    requires t < |b[i].callers| && b[i].callers[t].pc == Recheck(f, d)
    requires u == t || (u < |b[k].callers| && b[k].callers[u].pc == Waiting(f))
    requires Returned(b[j], u, x)
    ensures x.digest == d && d in b[j].images && b[j].images[d] == x
  {
    RunInv(b, i);
    RunInv(b, k);
    RunInv(b, j);
    assert CallerOk(b[i], t);
    TracksRun(b, i, j, t, f, d);
    if u != t {
      assert CallerOk(b[k], u);
      FollowsRun(b, k, j, u, f);
    }
    SharedOutcome(b[j], t, u, f, d, x);
  }

  /** Every '@' is followed by some other character, as in a printed reference. */
  predicate Separable(str: string) {
    forall i | 0 <= i < |str| && str[i] == '@' :: i + 1 < |str| && str[i + 1] != '@'
  }

  lemma ShorterSplitsLater(a: string, p: string, b: string, q: string)
    requires Separable(b) && a + "@@" + p == b + "@@" + q
    ensures |b| <= |a|
  {
    var key := a + "@@" + p;
    assert key[|a|] == '@' && key[|a| + 1] == '@';
    assert forall k | 0 <= k < |b| :: key[k] == b[k];
  }

  /** The singleflight key separates calls: equal keys are equal references and equal platforms. */
  lemma KeySeparates(c: Call, d: Call)
    requires Separable(c.ref.str) && Separable(d.ref.str) && c.Key() == d.Key()
    ensures c.ref.str == d.ref.str && c.platform == d.platform
  {
    ShorterSplitsLater(c.ref.str, c.platform, d.ref.str, d.platform);
    ShorterSplitsLater(d.ref.str, d.platform, c.ref.str, c.platform);
    var n := |c.ref.str|;
    assert c.Key()[..n] == c.ref.str && d.Key()[..n] == d.ref.str;
    assert c.Key()[n + 2..] == c.platform && d.Key()[n + 2..] == d.platform;
  }

  lemma FollowersShareKey(b: seq<State>, i: nat, u: nat)
    requires IsRun(b) && i < |b| && u < |b[i].callers| && b[i].callers[u].pc.Waiting?
    ensures var s := b[i];
            var f := s.callers[u].pc.flight;
            && f < |s.flights| && s.flights[f].leader < |s.callers|
            && s.callers[s.flights[f].leader].call.Key() == s.callers[u].call.Key()
  {
    RunInv(b, i);
    assert CallerOk(b[i], u);
    assert FlightOk(b[i], b[i].callers[u].pc.flight);
  }

  /** A follower waits for a flight led by a call for its own reference and platform. */
  lemma FollowersShareCall(b: seq<State>, i: nat, u: nat)
    requires IsRun(b) && i < |b| && u < |b[i].callers| && b[i].callers[u].pc.Waiting?
    requires forall c | c in b[i].callers :: Separable(c.call.ref.str)
    ensures var s := b[i];
            var f := s.callers[u].pc.flight;
            && f < |s.flights| && s.flights[f].leader < |s.callers|
            && var leader := s.callers[s.flights[f].leader].call;
               leader.ref.str == s.callers[u].call.ref.str && leader.platform == s.callers[u].call.platform
  {
    FollowersShareKey(b, i, u);
    var s := b[i];
    KeySeparates(s.callers[s.flights[s.callers[u].pc.flight].leader].call, s.callers[u].call);
  }

  lemma OneResolutionPerKey(b: seq<State>, i: nat, t: nat, u: nat)
    requires IsRun(b) && i < |b| && t < |b[i].callers| && u < |b[i].callers|
    requires Leads(b[i].callers[t].pc) && Leads(b[i].callers[u].pc)
    requires b[i].callers[t].call.Key() == b[i].callers[u].call.Key()
    ensures t == u
  {
    RunInv(b, i);
    assert CallerOk(b[i], t) && CallerOk(b[i], u);
  }

  /** At most one resolution per reference and platform is under way. */
  lemma OneResolutionPerCall(b: seq<State>, i: nat, t: nat, u: nat)
    requires IsRun(b) && i < |b| && t < |b[i].callers| && u < |b[i].callers|
    requires Leads(b[i].callers[t].pc) && Leads(b[i].callers[u].pc)
    requires b[i].callers[t].call.ref.str == b[i].callers[u].call.ref.str
    requires b[i].callers[t].call.platform == b[i].callers[u].call.platform
    ensures t == u
  {
    OneResolutionPerKey(b, i, t, u);
  }

  // ---- no work that is already done ----

  /** A call for a published digest returns it in its first step, without touching the group. */
  lemma PublishedAtOnce(s: State, s': State, t: nat, d: Hash)
    requires t < |s.callers| && StepOf(s, s', t)
    requires s.callers[t].pc == Start && s.callers[t].call.ref.digest == Some(d) && d in s.images
    ensures s' == s.(callers := s.callers[t := Caller(s.callers[t].call, Done(Ok(s.images[d])))])
  {
  }

  /** Otherwise it enters the group, where it joins the flight of its key or, if there is none, leads a new one. */
  lemma EntersOnce(s: State, s': State, t: nat)
    requires t < |s.callers| && StepOf(s, s', t)
    ensures var c, pc := s.callers[t].call, s'.callers[t].pc;
            && (s.callers[t].pc == Start && (c.ref.digest.Some? ==> c.ref.digest.value !in s.images) ==> pc == Enter)
            && (s.callers[t].pc == Enter && c.Key() in s.running ==>
                  pc == Waiting(s.running[c.Key()]) && s'.flights == s.flights)
            && (s.callers[t].pc == Enter && c.Key() !in s.running ==>
                  pc == Resolving(|s.flights|) && s'.flights == s.flights + [Flight(c.Key(), t, None)])
  {
    StepIsOwn(s, s', t);
  }

  /** A digest found published on the second look is returned, otherwise its layers are opened. */
  lemma SecondLook(s: State, s': State, t: nat, f: nat, d: Hash)
    requires t < |s.callers| && StepOf(s, s', t) && s.callers[t].pc == Recheck(f, d)
    ensures s'.callers[t].pc == if d in s.images then Finish(f, Ok(s.images[d])) else Opening(f, d)
  {
    StepIsOwn(s, s', t);
  }

  /** Layers are opened only for a digest that is not published. */
  lemma OpensOnlyUnpublished(s: State, s': State, t: nat)
    requires t < |s.callers| && StepOf(s, s', t) && s'.callers[t].pc.Opening?
    ensures s'.callers[t].pc.digest !in s.images
  {
  }

  /** Who built an image publishes it where there is none, and drops it for the published one otherwise. */
  lemma PublishesOrDrops(s: State, s': State, t: nat, f: nat, built: Resolved)
    requires t < |s.callers| && StepOf(s, s', t) && s.callers[t].pc == Publish(f, built)
    ensures built.digest !in s.images ==>
              s'.images == s.images[built.digest := built] && s'.callers[t].pc == Finish(f, Ok(built))
    ensures built.digest in s.images ==>
              s'.images == s.images && s'.callers[t].pc == Finish(f, Ok(s.images[built.digest]))
  {
  }

  // ---- every built object is a new one ----

  predicate BuiltBy(s: State, t: nat, id: nat) {
    t < |s.callers| && s.callers[t].pc.Publish? && s.callers[t].pc.built.id == id
  }

  /** Objects published and objects about to be are all different. */
  ghost predicate IdsFresh(s: State) {
    && (forall d | d in s.images :: s.images[d].id < s.nextId)
    && (forall d, e | d in s.images && e in s.images && d != e :: s.images[d].id != s.images[e].id)
    && (forall t: nat, id: nat | BuiltBy(s, t, id) :: id < s.nextId && forall d | d in s.images :: s.images[d].id != id)
    && (forall t: nat, u: nat, id: nat | BuiltBy(s, t, id) && BuiltBy(s, u, id) :: t == u)
  }

  /** A step that builds nothing and publishes nothing. */
  lemma QuietStepFresh(s: State, s': State, t: nat)
    requires IdsFresh(s) && t < |s.callers| && |s'.callers| == |s.callers| && s'.images == s.images && s'.nextId == s.nextId
    requires s'.callers == s.callers[t := s'.callers[t]] && !s'.callers[t].pc.Publish?
    ensures IdsFresh(s')
  {
    assert forall u: nat, id: nat | BuiltBy(s', u, id) :: BuiltBy(s, u, id);
  }

  lemma BuildFresh(s: State, s': State, t: nat)
    requires IdsFresh(s) && Build(s, s', t) && s'.callers[t].pc.Publish?
    ensures IdsFresh(s')
  {
    assert forall u: nat, id: nat | BuiltBy(s', u, id) :: (u == t && id == s.nextId) || (u != t && BuiltBy(s, u, id));
  }

  lemma PublishFresh(s: State, s': State, t: nat)
    requires IdsFresh(s) && PublishOrAdopt(s, s', t)
    ensures IdsFresh(s')
  {
    var built := s.callers[t].pc.built;
    assert BuiltBy(s, t, built.id);
    assert forall u: nat, id: nat | BuiltBy(s', u, id) :: u != t && BuiltBy(s, u, id);
  }

  lemma StepShape(s: State, s': State, t: nat)
    requires t < |s.callers| && StepOf(s, s', t)
    ensures || (Build(s, s', t) && s'.callers[t].pc.Publish?)
            || PublishOrAdopt(s, s', t)
            || (s'.images == s.images && s'.nextId == s.nextId && !s'.callers[t].pc.Publish?)
  {
    assert |s'.callers| == |s.callers| by {
      StepIsOwn(s, s', t);
    }
  }

  lemma ArriveFresh(s: State, s': State)
    requires IdsFresh(s) && Arrive(s, s')
    ensures IdsFresh(s')
  {
    assert forall u: nat, id: nat | BuiltBy(s', u, id) :: BuiltBy(s, u, id);
  }

  lemma NextFresh(s: State, s': State)
    requires IdsFresh(s) && Next(s, s')
    ensures IdsFresh(s')
  {
    hide IdsFresh, StepOf, Build, PublishOrAdopt;
    if Arrive(s, s') {
      ArriveFresh(s, s');
    } else {
      var t: nat :| t < |s.callers| && StepOf(s, s', t);
      StepShape(s, s', t);
      StepIsOwn(s, s', t);
      if Build(s, s', t) && s'.callers[t].pc.Publish? {
        BuildFresh(s, s', t);
      } else if PublishOrAdopt(s, s', t) {
        PublishFresh(s, s', t);
      } else {
        QuietStepFresh(s, s', t);
      }
    }
  }

  /** In every run all objects are told apart by identity: the published ones, and each one still to be published or dropped. */
  lemma {:induction false} ObjectsDiffer(b: seq<State>, i: nat)
    requires IsRun(b) && i < |b|
    ensures IdsFresh(b[i])
  {
    if i > 0 {
      hide IdsFresh, Next;
      ObjectsDiffer(b, i - 1);
      assert NextAt(b, i - 1);
      NextFresh(b[i - 1], b[i]);
    }
  }

  /** A call that takes the fast path returns an object of exactly the digest it asked for. */
  lemma FastPathDigest(b: seq<State>, i: nat, t: nat)
    requires IsRun(b) && i + 1 < |b| && t < |b[i].callers| && FastPath(b[i], b[i + 1], t)
    requires b[i + 1].callers[t].pc.Done?
    ensures b[i + 1].callers[t].pc.result.Ok?
    ensures b[i].callers[t].call.ref.digest == Some(b[i + 1].callers[t].pc.result.ri.digest)
  {
    RunInv(b, i);
  }

  lemma NextKeepsResult(s: State, s': State, t: nat)
    requires Next(s, s') && t < |s.callers| && s.callers[t].pc.Done?
    ensures t < |s'.callers| && s'.callers[t] == s.callers[t]
  {
    if !Arrive(s, s') {
      var u: nat :| u < |s.callers| && StepOf(s, s', u);
      assert u != t;
    }
  }

  /** A returned result stands. */
  lemma {:induction false} ResultsStand(b: seq<State>, i: nat, j: nat, t: nat)
    requires IsRun(b) && i <= j < |b| && t < |b[i].callers| && b[i].callers[t].pc.Done?
    ensures t < |b[j].callers| && b[j].callers[t] == b[i].callers[t]
    decreases j - i
  {
    hide Next;
    if i < j {
      ResultsStand(b, i, j - 1, t);
      assert NextAt(b, j - 1);
      NextKeepsResult(b[j - 1], b[j], t);
    }
  }

  // ---- no caller is left waiting on nobody ----

  /** A state the caller can move to on its own. */
  lemma CanStep(s: State, t: nat) returns (s': State)
    requires Inv(s) && t < |s.callers| && !s.callers[t].pc.Done?
    requires s.callers[t].pc.Waiting? ==>
               s.callers[t].pc.flight < |s.flights| && s.flights[s.callers[t].pc.flight].outcome.Some?
    ensures StepOf(s, s', t)
  {
    var c := s.callers[t];
    assert CallerOk(s, t);
    match c.pc
    case Start =>
      var d := c.call.ref.digest;
      s' := if d.Some? && d.value in s.images then At(s, t, Done(Ok(s.images[d.value]))) else At(s, t, Enter);
      assert FastPath(s, s', t);
    case Enter =>
      var key := c.call.Key();
      s' := if key in s.running then At(s, t, Waiting(s.running[key]))
            else At(s, t, Resolving(|s.flights|))
                   .(running := s.running[key := |s.flights|], flights := s.flights + [Flight(key, t, None)]);
      assert EnterGroup(s, s', t);
    case Resolving(f) =>
      s' := At(s, t, Finish(f, Failed));
      assert Resolve(s, s', t);
    case Recheck(f, d) =>
      s' := if d in s.images then At(s, t, Finish(f, Ok(s.images[d]))) else At(s, t, Opening(f, d));
      assert CheckAgain(s, s', t);
    case Opening(f, d) =>
      s' := At(s, t, Finish(f, Failed));
      assert Build(s, s', t);
    case Publish(f, built) =>
      var d := built.digest;
      s' := if d in s.images then At(s, t, Finish(f, Ok(s.images[d])))
            else At(s, t, Finish(f, Ok(built))).(images := s.images[d := built]);
      assert PublishOrAdopt(s, s', t);
    case Finish(f, o) =>
      s' := At(s, t, Done(o)).(running := s.running - {c.call.Key()},
                               flights := s.flights[f := s.flights[f].(outcome := Some(o))]);
      assert Close(s, s', t);
    case Waiting(f) =>
      s' := At(s, t, Done(s.flights[f].outcome.value));
      assert Wake(s, s', t);
  }

  /** While some call has not returned, some call can step: a follower's flight is closed or has a live leader. */
  lemma NoDeadlock(b: seq<State>, i: nat, t: nat) returns (u: nat, s': State)
    requires IsRun(b) && i < |b| && t < |b[i].callers| && !b[i].callers[t].pc.Done?
    ensures u < |b[i].callers| && StepOf(b[i], s', u)
  {
    RunInv(b, i);
    assert CallerOk(b[i], t);
    u := t;
    if b[i].callers[t].pc.Waiting? {
      var f := b[i].callers[t].pc.flight;
      assert FlightOk(b[i], f);
      if b[i].flights[f].outcome == None {
        u := b[i].flights[f].leader;
      }
    }
    s' := CanStep(b[i], u);
  }

  // ---- calls finish ----

  function Ranks(cs: seq<Caller>): nat {
    if cs == [] then 0 else Ranks(cs[..|cs| - 1]) + Rank(cs[|cs| - 1].pc)
  }

  lemma {:induction false} RanksUpdate(cs: seq<Caller>, t: nat, c: Caller)
    requires t < |cs|
    ensures Ranks(cs[t := c]) + Rank(cs[t].pc) == Ranks(cs) + Rank(c.pc)
  {
    var init, after := cs[..|cs| - 1], cs[t := c];
    if t == |cs| - 1 {
      assert after[..|cs| - 1] == init;
    } else {
      assert after[..|cs| - 1] == init[t := c];
      RanksUpdate(init, t, c);
    }
  }

  lemma {:induction false} StepsAndRanks(b: seq<State>, i: nat)
    requires IsRun(b) && i < |b|
    ensures i + Ranks(b[i].callers) <= 8 * |b[i].callers|
  {
    hide StepOf, Rank;
    if i > 0 {
      StepsAndRanks(b, i - 1);
      var s, s' := b[i - 1], b[i];
      assert NextAt(b, i - 1);
      if Arrive(s, s') {
        var call :| s' == s.(callers := s.callers + [Caller(call, Start)]);
        StartRank();
        assert s'.callers[..|s'.callers| - 1] == s.callers;
      } else {
        var t: nat :| t < |s.callers| && StepOf(s, s', t);
        StepIsOwn(s, s', t);
        RanksUpdate(s.callers, t, s'.callers[t]);
      }
    }
  }

  lemma StartRank()
    ensures Rank(Start) == 7
  {
  }

  /** Every call returns: with n calls a run has at most 8n steps, and one that cannot go on has all calls returned. */
  lemma CallsFinish(b: seq<State>)
    requires IsRun(b)
    ensures var last := b[|b| - 1];
            && |b| - 1 <= 8 * |last.callers|
            && ((forall s', u: nat | u < |last.callers| :: !StepOf(last, s', u)) ==>
                  forall t: nat | t < |last.callers| :: last.callers[t].pc.Done?)
  {
    hide StepOf;
    var last := b[|b| - 1];
    StepsAndRanks(b, |b| - 1);
    forall t: nat | t < |last.callers| && !last.callers[t].pc.Done?
      ensures exists s', u: nat :: u < |last.callers| && StepOf(last, s', u)
    {
      var u, s' := NoDeadlock(b, |b| - 1, t);
      assert u < |last.callers| && StepOf(last, s', u);
    }
  }

  // ---- a call that succeeds ----

  ghost predicate Reaches(b: seq<State>, s: State) {
    IsRun(b) && b[|b| - 1] == s
  }

  lemma ReachesMore(b: seq<State>, s: State, s': State)
    requires Reaches(b, s) && Next(s, s')
    ensures Reaches(b + [s'], s')
  {
    var c := b + [s'];
    forall i: nat | i + 1 < |c| ensures NextAt(c, i) {
      if i + 1 < |b| {
        assert NextAt(b, i);
      }
    }
  }

  /** What one call alone can come to: every step of it can succeed, and its image is published and returned. */
  lemma ACallSucceeds(call: Call, d: Hash) returns (b: seq<State>)
    requires call.ref.digest == None
    ensures var ri := Resolved(0, d);
            IsRun(b) && b[|b| - 1].images == map[d := ri] && b[|b| - 1].callers == [Caller(call, Done(Ok(ri)))]
  {
    hide IsRun, NextAt;
    var key, ri := call.Key(), Resolved(0, d);
    var open := Flight(key, 0, None);
    var s0 := State([], map[], map[], [], 0);
    var s1 := State([Caller(call, Start)], map[], map[], [], 0);
    var s2 := State([Caller(call, Enter)], map[], map[], [], 0);
    var s3 := State([Caller(call, Resolving(0))], map[], map[key := 0], [open], 0);
    var s4 := State([Caller(call, Recheck(0, d))], map[], map[key := 0], [open], 0);
    var s5 := State([Caller(call, Opening(0, d))], map[], map[key := 0], [open], 0);
    var s6 := State([Caller(call, Publish(0, ri))], map[], map[key := 0], [open], 1);
    var s7 := State([Caller(call, Finish(0, Ok(ri)))], map[d := ri], map[key := 0], [open], 1);
    var s8 := State([Caller(call, Done(Ok(ri)))], map[d := ri], map[], [Flight(key, 0, Some(Ok(ri)))], 1);
    Starts(s0);
    assert Arrive(s0, s1) by {
      assert s1 == s0.(callers := s0.callers + [Caller(call, Start)]);
    }
    assert FastPath(s1, s2, 0) && EnterGroup(s2, s3, 0);
    assert Resolve(s3, s4, 0) by {
      assert s4 == At(s3, 0, Recheck(0, d));
    }
    assert CheckAgain(s4, s5, 0) && Build(s5, s6, 0) && PublishOrAdopt(s6, s7, 0);
    assert Close(s7, s8, 0) by {
      assert map[key := 0] - {key} == map[];
    }
    b := [s0];
    ReachesMore(b, s0, s1);
    StepIsNext(s1, s2, 0);
    ReachesMore(b + [s1], s1, s2);
    StepIsNext(s2, s3, 0);
    ReachesMore(b + [s1] + [s2], s2, s3);
    StepIsNext(s3, s4, 0);
    ReachesMore(b + [s1] + [s2] + [s3], s3, s4);
    StepIsNext(s4, s5, 0);
    ReachesMore(b + [s1] + [s2] + [s3] + [s4], s4, s5);
    StepIsNext(s5, s6, 0);
    ReachesMore(b + [s1] + [s2] + [s3] + [s4] + [s5], s5, s6);
    StepIsNext(s6, s7, 0);
    ReachesMore(b + [s1] + [s2] + [s3] + [s4] + [s5] + [s6], s6, s7);
    StepIsNext(s7, s8, 0);
    ReachesMore(b + [s1] + [s2] + [s3] + [s4] + [s5] + [s6] + [s7], s7, s8);
    b := b + [s1] + [s2] + [s3] + [s4] + [s5] + [s6] + [s7] + [s8];
  }

  lemma Starts(s: State)
    requires Init(s)
    ensures Reaches([s], s)
  {
  }

  lemma StepIsNext(s: State, s': State, t: nat)
    requires t < |s.callers| && StepOf(s, s', t)
    ensures Next(s, s')
  {
  }
}
