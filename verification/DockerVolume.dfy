/**
 * The preparation of a Docker volume in docker_remote.py. Every command may succeed, fail, or be
 * interrupted, and apart from success its effect may or may not have taken place by then.
 */
module DockerVolume {
  import opened Prelude

  datatype Command = VolumeCreate | ContainerCreate | Copy | ContainerRemove | VolumeRemove | Body

  /** The two named resources, and whether anyone else's container mounts the volume. */
  datatype World = World(volume: bool, container: bool, others: bool)

  /** Exit code zero with the expected output or another, an error, or an exception that is no `DockerRemoteError`. */
  datatype Outcome = Done(expected: bool) | Failed | Interrupted

  /** What one command is told: its outcome, and whether a command without a clear success took effect. */
  datatype Reply = Reply(outcome: Outcome, effect: bool)

  datatype Event = Event(command: Command, before: World, after: World, outcome: Outcome)

  datatype Cause = RemoteError | BodyError | BaseError

  datatype Exit =
    | Finished
    | RaisedPrimary(cause: Cause)
    | CleanupFailed(from: Option<Cause>)
    | PrimaryWithNote(cause: Cause)
    | CleanupInterrupted

  /** What the `with` body does to the volume, and how it ends. */
  datatype Use = Use(keepsVolume: bool, others: bool, ending: Option<Cause>)

  predicate Empty(w: World) {
    !w.volume && !w.container
  }

  predicate Reports(exit: Exit) {
    exit.CleanupFailed? || exit.PrimaryWithNote?
  }

  /**
   * The daemon. A removal that succeeds has removed, a creation that answers as expected has created,
   * a container mounting a missing volume creates it, and a volume in use cannot be removed.
   */
  function Answer(command: Command, w: World, reply: Reply): (World, Outcome) {
    var took := reply.effect || reply.outcome == Done(true);
    match command
    case VolumeCreate => (if took then w.(volume := true) else w, reply.outcome)
    case ContainerCreate => (if took then w.(container := true, volume := true) else w, reply.outcome)
    case Copy => (w, reply.outcome)
    case ContainerRemove => (if reply.effect || reply.outcome.Done? then w.(container := false) else w, reply.outcome)
    case VolumeRemove =>
      if w.container || w.others then (w, if reply.outcome.Done? then Failed else reply.outcome)
      else (if reply.effect || reply.outcome.Done? then w.(volume := false) else w, reply.outcome)
    case Body => (w, reply.outcome)
  }

  // ---- what a run does, as a function of the replies --------------------------------------------------

  type Replies = nat -> Reply

  /** A command of the `try` block goes on to the next one only when it succeeds as expected. */
  predicate Accepted(e: Event) {
    e.outcome.Done? && (e.command in {VolumeCreate, ContainerCreate} ==> e.outcome.expected)
  }

  function EventOf(command: Command, w: World, reply: Reply): Event {
    var answer := Answer(command, w, reply);
    Event(command, w, answer.0, answer.1)
  }

  /** Commands issued one after another until one is not accepted. */
  function Perform(commands: seq<Command>, w: World, replies: Replies, n: nat): seq<Event> {
    if commands == [] then []
    else
      var e := EventOf(commands[0], w, replies(n));
      [e] + if Accepted(e) then Perform(commands[1..], e.after, replies, n + 1) else []
  }

  /** Commands issued one after another until one is interrupted. */
  function Attempt(commands: seq<Command>, w: World, replies: Replies, n: nat): seq<Event> {
    if commands == [] then []
    else
      var e := EventOf(commands[0], w, replies(n));
      [e] + if e.outcome.Interrupted? then [] else Attempt(commands[1..], e.after, replies, n + 1)
  }

  function After(log: seq<Event>, w: World): World {
    if log == [] then w else log[|log| - 1].after
  }

  const SETUP: seq<Command> := [VolumeCreate, ContainerCreate, Copy, ContainerRemove]

  predicate Ready(setup: seq<Event>) {
    |setup| == |SETUP| && Accepted(setup[|setup| - 1])
  }

  function BodyEvent(use: Use, w: World): Event {
    Event(Body, w, World(use.keepsVolume && w.volume, w.container, use.others), Done(true))
  }

  /** Everything up to the `finally` block. */
  function Before(use: Use, w: World, replies: Replies): seq<Event> {
    var setup := Perform(SETUP, w, replies, 0);
    if Ready(setup) then setup + [BodyEvent(use, After(setup, w))] else setup
  }

  /** The error on reaching the `finally` block. */
  function Primary(use: Use, w: World, replies: Replies): Option<Cause> {
    var setup := Perform(SETUP, w, replies, 0);
    if Ready(setup) then use.ending
    else if setup != [] && setup[|setup| - 1].outcome.Interrupted? then Some(BaseError)
    else Some(RemoteError)
  }

  /** The container is cleaned up if its creation was issued and its removal was not confirmed. */
  function Cleanups(before: seq<Event>): seq<Command> {
    if 2 <= |before| <= |SETUP| then [ContainerRemove, VolumeRemove] else [VolumeRemove]
  }

  function CleanupEvents(use: Use, w: World, replies: Replies): seq<Event> {
    var before := Before(use, w, replies);
    Attempt(Cleanups(before), After(before, w), replies, |before|)
  }

  function Failures(log: seq<Event>): nat {
    if log == [] then 0 else (if log[0].outcome.Failed? then 1 else 0) + Failures(log[1..])
  }

  predicate CutShort(log: seq<Event>) {
    log != [] && log[|log| - 1].outcome.Interrupted?
  }

  /** How the context manager is left, given the error so far and the number of failed cleanups. */
  function Leaving(primary: Option<Cause>, errors: nat): Exit {
    if errors == 0 then (if primary.None? then Finished else RaisedPrimary(primary.value))
    else if primary.None? then CleanupFailed(None)
    else if primary.value != BaseError then CleanupFailed(primary)
    else PrimaryWithNote(primary.value)
  }

  function ExitOf(use: Use, w: World, replies: Replies): Exit {
    var cleanup := CleanupEvents(use, w, replies);
    if CutShort(cleanup) then CleanupInterrupted else Leaving(Primary(use, w, replies), Failures(cleanup))
  }

  function LogOf(use: Use, w: World, replies: Replies): seq<Event> {
    Before(use, w, replies) + CleanupEvents(use, w, replies)
  }

  function Final(use: Use, w: World, replies: Replies): World {
    After(LogOf(use, w, replies), w)
  }

  // ---- the program --------------------------------------------------------------------------------

  class Docker {
    var world: World
    var log: seq<Event>
    const replies: Replies

    constructor (world: World, replies: Replies)
      ensures this.world == world && log == [] && this.replies == replies
    {
      this.world, this.log, this.replies := world, [], replies;
    }

    /** `_run_docker`. */
    method Issue(command: Command) returns (outcome: Outcome)
      modifies this
      ensures log == old(log) + [EventOf(command, old(world), replies(|old(log)|))]
      ensures world == log[|log| - 1].after && outcome == log[|log| - 1].outcome
    {
      var e := EventOf(command, world, replies(|log|));
      log := log + [e];
      world, outcome := e.after, e.outcome;
    }

    /** The code inside the `with` statement; it does not know the container's name. */
    method RunBody(use: Use)
      modifies this
      ensures log == old(log) + [BodyEvent(use, old(world))] && world == log[|log| - 1].after
    {
      var e := BodyEvent(use, world);
      log := log + [e];
      world := e.after;
    }

    /** One command of the `try` block, with the rest of it still to come. */
    method IssueNext(command: Command, ghost rest: seq<Command>, ghost whole: seq<Event>) returns (outcome: Outcome)
      requires log + Perform([command] + rest, world, replies, |log|) == whole
      modifies this
      ensures |log| == |old(log)| + 1 && log[|log| - 1].command == command
      ensures world == log[|log| - 1].after && outcome == log[|log| - 1].outcome
      ensures if Accepted(log[|log| - 1]) then log + Perform(rest, world, replies, |log|) == whole else log == whole
    {
      assert ([command] + rest)[1..] == rest;
      outcome := Issue(command);
    }
  }

  function CauseOf(outcome: Outcome): Cause {
    if outcome.Interrupted? then BaseError else RemoteError
  }

  /** The `try` block. */
  method Populate(docker: Docker, use: Use) returns (containerMayExist: bool, primary: Option<Cause>)
    requires docker.log == []
    modifies docker
    ensures docker.log == Before(use, old(docker.world), docker.replies)
    ensures docker.world == After(docker.log, old(docker.world))
    ensures primary == Primary(use, old(docker.world), docker.replies)
    ensures containerMayExist <==> 2 <= |docker.log| <= |SETUP|
  {
    ghost var whole := Perform(SETUP, docker.world, docker.replies, 0);
    assert SETUP == [VolumeCreate] + [ContainerCreate, Copy, ContainerRemove];
    assert docker.log + whole == whole;
    containerMayExist, primary := CreateBoth(docker, whole);
    if primary.Some? {
      return;
    }
    primary := Fill(docker, whole);
    if primary.Some? {
      return;
    }
    containerMayExist := false;
    docker.RunBody(use);
    primary := use.ending;
  }

  /** The error when the last command was not accepted. */
  function CauseOfLast(log: seq<Event>): Cause
    requires log != []
  {
    CauseOf(log[|log| - 1].outcome)
  }

  /** Cleanup is armed before each creation. */
  method CreateBoth(docker: Docker, ghost whole: seq<Event>) returns (containerMayExist: bool, primary: Option<Cause>)
    requires docker.log == [] && whole == Perform(SETUP, docker.world, docker.replies, 0)
    modifies docker
    ensures docker.log != [] && docker.world == After(docker.log, docker.world)
    ensures containerMayExist <==> |docker.log| == 2
    ensures primary.Some? ==>
              && |docker.log| <= 2 && docker.log == whole
              && primary == Some(CauseOfLast(whole)) && !Accepted(whole[|whole| - 1])
    ensures primary.None? ==>
              && |docker.log| == 2
              && docker.log + Perform([Copy, ContainerRemove], docker.world, docker.replies, 2) == whole
  {
    containerMayExist := false;
    assert docker.log + whole == whole && SETUP == [VolumeCreate] + [ContainerCreate, Copy, ContainerRemove];
    var created := docker.IssueNext(VolumeCreate, [ContainerCreate, Copy, ContainerRemove], whole);
    if !created.Done? {
      return containerMayExist, Some(CauseOf(created));
    }
    if !created.expected {
      return containerMayExist, Some(RemoteError);
    }
    containerMayExist := true;
    assert [ContainerCreate, Copy, ContainerRemove] == [ContainerCreate] + [Copy, ContainerRemove];
    created := docker.IssueNext(ContainerCreate, [Copy, ContainerRemove], whole);
    if !created.Done? {
      return containerMayExist, Some(CauseOf(created));
    }
    if !created.expected {
      return containerMayExist, Some(RemoteError);
    }
    primary := None;
  }

  /** The archive goes in, then the preparation container goes away. */
  method Fill(docker: Docker, ghost whole: seq<Event>) returns (primary: Option<Cause>)
    requires |docker.log| == 2
    requires docker.log + Perform([Copy, ContainerRemove], docker.world, docker.replies, 2) == whole
    modifies docker
    ensures docker.log == whole && 3 <= |whole| <= 4 && docker.world == After(docker.log, docker.world)
    ensures primary.None? <==> Ready(whole)
    ensures primary.Some? ==> primary == Some(CauseOfLast(whole))
  {
    assert [Copy, ContainerRemove] == [Copy] + [ContainerRemove] && [ContainerRemove] == [ContainerRemove] + [];
    var copied := docker.IssueNext(Copy, [ContainerRemove], whole);
    if !copied.Done? {
      return Some(CauseOf(copied));
    }
    var removed := docker.IssueNext(ContainerRemove, [], whole);
    if !removed.Done? {
      return Some(CauseOf(removed));
    }
    primary := None;
  }

  lemma {:induction false} CountFailures(last: Event, first: Event)
    ensures Failures([last]) == if last.outcome.Failed? then 1 else 0
    ensures Failures([first, last]) == (if first.outcome.Failed? then 1 else 0) + Failures([last])
  {
    assert [first, last][1..] == [last] && [last][1..] == [];
  }

  /** The `finally` block; `volume_may_exist` is always set by then. */
  method CleanUp(docker: Docker, containerMayExist: bool) returns (errors: nat, interrupted: bool)
    modifies docker
    ensures var commands := if containerMayExist then [ContainerRemove, VolumeRemove] else [VolumeRemove];
            var cleanup := Attempt(commands, old(docker.world), docker.replies, |old(docker.log)|);
            && docker.log == old(docker.log) + cleanup && docker.world == After(cleanup, old(docker.world))
            && interrupted == CutShort(cleanup) && (!interrupted ==> errors == Failures(cleanup))
  {
    ghost var start, before := docker.world, docker.log;
    errors, interrupted := 0, false;
    assert [ContainerRemove, VolumeRemove][1..] == [VolumeRemove] && [VolumeRemove][1..] == [];
    if containerMayExist {
      var removed := docker.Issue(ContainerRemove);
      if removed.Interrupted? {
        return errors, true;
      }
      if removed.Failed? {
        errors := errors + 1;
      }
    }
    ghost var halfway := docker.log;
    var removed := docker.Issue(VolumeRemove);
    ghost var last := docker.log[|docker.log| - 1];
    assert Attempt([VolumeRemove], last.before, docker.replies, |halfway|) == [last];
    if containerMayExist {
      assert halfway == before + [halfway[|before|]];
      assert docker.log == before + [halfway[|before|], last];
      assert Attempt([ContainerRemove, VolumeRemove], start, docker.replies, |before|) == [halfway[|before|], last];
      CountFailures(last, halfway[|before|]);
    } else {
      CountFailures(last, last);
    }
    if removed.Interrupted? {
      return errors, true;
    }
    if removed.Failed? {
      errors := errors + 1;
    }
  }

  /** `prepared_workspace_volume`. */
  method PreparedWorkspaceVolume(docker: Docker, use: Use) returns (exit: Exit)
    requires docker.log == []
    modifies docker
    ensures docker.log == LogOf(use, old(docker.world), docker.replies)
    ensures docker.world == Final(use, old(docker.world), docker.replies)
    ensures exit == ExitOf(use, old(docker.world), docker.replies)
  {
    var containerMayExist, primary := Populate(docker, use);
    var errors, interrupted := CleanUp(docker, containerMayExist);
    exit := if interrupted then CleanupInterrupted else Leaving(primary, errors);
  }

  // ---- what every run promises --------------------------------------------------------------------

  /** Where the `try` block can stop, and what may exist then. */
  lemma {:induction false} SetupOutcomes(w: World, replies: Replies)
    requires Empty(w)
    ensures var setup := Perform(SETUP, w, replies, 0);
            var last := After(setup, w);
            && 1 <= |setup| <= 4
            && (forall i :: 0 <= i < |setup| ==> setup[i].command == SETUP[i])
            && (last.container ==> 2 <= |setup| && !Ready(setup))
            && (Ready(setup) ==> last.volume)
            && (|setup| == 4 ==> setup[2].after.volume)
  {
    assert SETUP[1..] == [ContainerCreate, Copy, ContainerRemove];
    assert [ContainerCreate, Copy, ContainerRemove][1..] == [Copy, ContainerRemove];
    assert [Copy, ContainerRemove][1..] == [ContainerRemove] && [ContainerRemove][1..] == [];
    var e0 := EventOf(VolumeCreate, w, replies(0));
    var e1 := EventOf(ContainerCreate, e0.after, replies(1));
    var e2 := EventOf(Copy, e1.after, replies(2));
    var e3 := EventOf(ContainerRemove, e2.after, replies(3));
    assert Perform([ContainerRemove], e2.after, replies, 3) == [e3];
    assert Perform([Copy, ContainerRemove], e1.after, replies, 2) ==
             [e2] + if Accepted(e2) then [e3] else [];
  }

  /** The cleanup attempted on what the `try` block left. */
  lemma {:induction false} CleanupOutcomes(w: World, containerMayExist: bool, replies: Replies, n: nat)
    requires w.container ==> containerMayExist
    ensures var commands := if containerMayExist then [ContainerRemove, VolumeRemove] else [VolumeRemove];
            var cleanup := Attempt(commands, w, replies, n);
            && 1 <= |cleanup| <= |commands|
            && (forall i :: 0 <= i < |cleanup| ==> cleanup[i].command == commands[i])
            && (!CutShort(cleanup) && Failures(cleanup) == 0 ==> Empty(After(cleanup, w)))
            && (!CutShort(cleanup) ==> |cleanup| == |commands|)
            && (|cleanup| == 2 && cleanup[1].before.container ==> cleanup[0].outcome.Failed?)
  {
    assert [ContainerRemove, VolumeRemove][1..] == [VolumeRemove] && [VolumeRemove][1..] == [];
    var e0 := EventOf(ContainerRemove, w, replies(n));
    var alone := EventOf(VolumeRemove, w, replies(n));
    var e1 := EventOf(VolumeRemove, e0.after, replies(n + 1));
    assert Attempt([VolumeRemove], w, replies, n) == [alone];
    assert Attempt([VolumeRemove], e0.after, replies, n + 1) == [e1];
    assert Attempt([ContainerRemove, VolumeRemove], w, replies, n)
        == [e0] + if e0.outcome.Interrupted? then [] else [e1];
    CountFailures(alone, alone);
    CountFailures(e1, e0);
  }

  /**
   * Whatever the commands answer and whether or not they took effect, on exit neither resource
   * remains or the exit reports a cleanup failure, unless cleanup itself was interrupted.
   */
  lemma {:induction false} NothingRemainsUnreported(use: Use, w: World, replies: Replies)
    requires Empty(w)
    ensures Empty(Final(use, w, replies)) || Reports(ExitOf(use, w, replies))
              || ExitOf(use, w, replies) == CleanupInterrupted
  {
    SetupOutcomes(w, replies);
    var before := Before(use, w, replies);
    CleanupOutcomes(After(before, w), 2 <= |before| <= |SETUP|, replies, |before|);
  }

  /** A cleanup failure is reported exactly when a cleanup command failed, and the first error is never lost. */
  lemma {:induction false} NothingIsSwallowed(use: Use, w: World, replies: Replies)
    requires ExitOf(use, w, replies) != CleanupInterrupted
    ensures var exit, primary := ExitOf(use, w, replies), Primary(use, w, replies);
            && (Reports(exit) <==> exists e :: e in CleanupEvents(use, w, replies) && e.outcome.Failed?)
            && (primary.None? ==> exit in {Finished, CleanupFailed(None)})
            && (primary.Some? ==>
                  exit in {RaisedPrimary(primary.value), CleanupFailed(primary), PrimaryWithNote(primary.value)})
            && (primary == Some(BaseError) ==> !exit.CleanupFailed?)
  {
    FailuresExist(CleanupEvents(use, w, replies));
  }

  lemma {:induction false} FailuresExist(log: seq<Event>)
    ensures Failures(log) > 0 <==> exists e :: e in log && e.outcome.Failed?
  {
    if log != [] {
      FailuresExist(log[1..]);
      assert log == [log[0]] + log[1..];
    }
  }

  /** The volume is removed with our container gone, or right after a failed attempt to remove it. */
  lemma {:induction false} ContainerBeforeVolume(use: Use, w: World, replies: Replies, i: nat)
    requires Empty(w) && i < |LogOf(use, w, replies)|
    requires LogOf(use, w, replies)[i].command == VolumeRemove && LogOf(use, w, replies)[i].before.container
    ensures i > 0 && LogOf(use, w, replies)[i - 1].command == ContainerRemove
    ensures LogOf(use, w, replies)[i - 1].outcome.Failed?
  {
    SetupOutcomes(w, replies);
    var before := Before(use, w, replies);
    CleanupOutcomes(After(before, w), 2 <= |before| <= |SETUP|, replies, |before|);
  }

  /** The body runs with the volume in place and our container gone, and exactly when nothing failed before it. */
  lemma {:induction false} BodyRunsOnAReadyVolume(use: Use, w: World, replies: Replies, i: nat)
    requires Empty(w) && i < |LogOf(use, w, replies)| && LogOf(use, w, replies)[i].command == Body
    ensures LogOf(use, w, replies)[i].before.volume && !LogOf(use, w, replies)[i].before.container
    ensures forall j :: 0 <= j < i ==> Accepted(LogOf(use, w, replies)[j])
    ensures Primary(use, w, replies) == use.ending
  {
    SetupOutcomes(w, replies);
    var before := Before(use, w, replies);
    CleanupOutcomes(After(before, w), 2 <= |before| <= |SETUP|, replies, |before|);
  }

  /**
   * The replies to cleanup that leave something behind unreported. With both commands due, either the
   * container's removal is interrupted while the volume stands or with the container still there, or
   * the volume's removal is: then the container stays if its own removal failed without effect, and
   * the volume stays if it is in use or its removal had no effect. `at` is the state before cleanup.
   */
  predicate LeavesBehind(at: World, both: bool, first: Reply, second: Reply) {
    if !both then first.outcome.Interrupted? && at.volume && (at.others || !first.effect)
    else if first.outcome.Interrupted? then at.volume || (at.container && !first.effect)
    else
      second.outcome.Interrupted? &&
      ((at.container && first.outcome.Failed? && !first.effect) || (at.volume && (at.others || !second.effect)))
  }

  /** Cleanup alone: it is interrupted with something left exactly on those replies. */
  lemma {:induction false} CleanupLeavesBehind(at: World, both: bool, replies: Replies, n: nat)
    requires !both ==> !at.container
    ensures var commands := if both then [ContainerRemove, VolumeRemove] else [VolumeRemove];
            var cleanup := Attempt(commands, at, replies, n);
            CutShort(cleanup) && !Empty(After(cleanup, at)) <==> LeavesBehind(at, both, replies(n), replies(n + 1))
  {
    assert [ContainerRemove, VolumeRemove][1..] == [VolumeRemove] && [VolumeRemove][1..] == [];
    var e0 := EventOf(ContainerRemove, at, replies(n));
    var alone := EventOf(VolumeRemove, at, replies(n));
    var e1 := EventOf(VolumeRemove, e0.after, replies(n + 1));
    assert Attempt([VolumeRemove], at, replies, n) == [alone];
    assert Attempt([VolumeRemove], e0.after, replies, n + 1) == [e1];
    assert Attempt([ContainerRemove, VolumeRemove], at, replies, n)
        == [e0] + if e0.outcome.Interrupted? then [] else [e1];
  }

  lemma {:induction false} ExitNamesInterruption(use: Use, w: World, replies: Replies)
    ensures ExitOf(use, w, replies) == CleanupInterrupted <==> CutShort(CleanupEvents(use, w, replies))
  {
  }

  /** An interruption before the volume's turn leaves the volume as it was. */
  lemma {:induction false} InterruptionSparesTheVolume(use: Use, w: World, replies: Replies)
    requires Empty(w) && CutShort(CleanupEvents(use, w, replies))
    requires |CleanupEvents(use, w, replies)| < |Cleanups(Before(use, w, replies))|
    ensures Final(use, w, replies).volume == After(Before(use, w, replies), w).volume
  {
    SetupOutcomes(w, replies);
    var before := Before(use, w, replies);
    CleanupOutcomes(After(before, w), 2 <= |before| <= |SETUP|, replies, |before|);
  }

  /**
   * The exact gap, read off the replies: something remains unreported if and only if the replies to
   * the cleanup commands are of the kind above.
   */
  lemma {:induction false} LeaksExactlyWhenCutShort(use: Use, w: World, replies: Replies)
    requires Empty(w)
    ensures var before := Before(use, w, replies);
            !Empty(Final(use, w, replies)) && !Reports(ExitOf(use, w, replies)) <==>
            LeavesBehind(After(before, w), 2 <= |before| <= |SETUP|, replies(|before|), replies(|before| + 1))
  {
    NothingRemainsUnreported(use, w, replies);
    ExitNamesInterruption(use, w, replies);
    SetupOutcomes(w, replies);
    var before := Before(use, w, replies);
    CleanupLeavesBehind(After(before, w), 2 <= |before| <= |SETUP|, replies, |before|);
  }

  /** It can happen: the container fails to be created, and its cleanup is interrupted. */
  lemma {:induction false} InterruptedCleanupLeaks(use: Use) returns (replies: Replies)
    ensures ExitOf(use, World(false, false, false), replies) == CleanupInterrupted
    ensures Final(use, World(false, false, false), replies).volume
  {
    replies := (n: nat) =>
      if n == 0 then Reply(Done(true), true) else if n == 1 then Reply(Failed, false) else Reply(Interrupted, false);
    var w := World(false, false, false);
    SetupOutcomes(w, replies);
    var before := Before(use, w, replies);
    assert Perform(SETUP[1..], World(true, false, false), replies, 1)
        == [EventOf(ContainerCreate, World(true, false, false), replies(1))];
    assert before == [EventOf(VolumeCreate, w, replies(0)),
        EventOf(ContainerCreate, World(true, false, false), replies(1))];
    CleanupOutcomes(After(before, w), true, replies, 2);
  }
}
