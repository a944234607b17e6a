/** The durable checkpoint file and the store that replaces it step by step. */
module Checkpoint {
  import opened Instants
  import opened Options

  type Cursors = map<string, Time>

  /** What a read after a crash can find in a file. Data that was written but not yet synced may
      be torn. */
  datatype Content = Written(cursors: Cursors) | Synced(cursors: Cursors)

  datatype Image = Missing | Whole(cursors: Cursors) | Torn

  /** The checkpoint path and the temporary file of the current replacement, or one an earlier crash
      left behind; each replacement writes a new one. */
  datatype Disk = Disk(file: Option<Content>, temp: Option<Content>)

  /** The steps of one replacement, in order. The final directory sync cannot fail the call. */
  datatype Step = Marshal | MakeDirectory | CreateTemp | Chmod | Write | Sync | Close | Rename

  const STEPS: seq<Step> := [Marshal, MakeDirectory, CreateTemp, Chmod, Write, Sync, Close, Rename]

  function After(disk: Disk, step: Step, next: Cursors): Disk
  {
    match step
    case Write => disk.(temp := Some(Written(next)))
    case Sync => disk.(temp := if disk.temp.Some? then Some(Synced(disk.temp.value.cursors)) else None)
    case Rename => Disk(disk.temp, None)
    case Marshal => disk
    case MakeDirectory => disk
    case CreateTemp => disk.(temp := Some(Written(map[])))
    case Chmod => disk
    case Close => disk
  }

  /** Everything a crash at this point can leave at the checkpoint path. */
  function CrashImages(disk: Disk): set<Image>
  {
    match disk.file
    case None => {Missing}
    case Some(Synced(m)) => {Whole(m)}
    case Some(Written(m)) => {Whole(m), Torn}
  }

  /** The values a restarted process loads; a torn file does not decode. */
  function Load(image: Image): Option<Cursors>
  {
    match image
    case Missing => Some(map[])
    case Whole(m) => Some(m)
    case Torn => None
  }

  /** The checkpoint path holds these cursors durably, whatever temporary file lies beside it. */
  ghost predicate Holds(disk: Disk, values: Cursors)
  {
    match disk.file
    case None => values == map[]
    case Some(content) => content == Synced(values)
  }

  /** The disk after the first n steps. */
  function AfterSteps(disk: Disk, n: nat, next: Cursors): Disk
    requires n <= |STEPS|
  {
    if n == 0 then disk else After(AfterSteps(disk, n - 1, next), STEPS[n - 1], next)
  }

  /** A crash after any number of steps leaves a file that loads as either the old or the new
      cursors, never a torn one; the new ones exactly when the rename was reached. */
  lemma CrashLeavesOldOrNew(disk: Disk, values: Cursors, next: Cursors, n: nat)
    requires Holds(disk, values) && n <= |STEPS|
    ensures forall image :: image in CrashImages(AfterSteps(disk, n, next)) ==>
              Load(image) == Some(if n == |STEPS| then next else values)
    ensures Holds(AfterSteps(disk, n, next), if n == |STEPS| then next else values)
  {
    var d1 := AfterSteps(disk, 0, next);
    if n <= 5 {
      FileUntouched(disk, n, next);
    } else {
      FileUntouched(disk, 5, next);
      assert AfterSteps(disk, 5, next).temp == Some(Written(next));
      assert AfterSteps(disk, 6, next).temp == Some(Synced(next));
      assert n >= 7 ==> AfterSteps(disk, 7, next).temp == Some(Synced(next));
    }
  }

  lemma {:induction false} FileUntouched(disk: Disk, n: nat, next: Cursors)
    requires n < |STEPS|
    ensures AfterSteps(disk, n, next).file == disk.file
  {
    if n > 0 {
      FileUntouched(disk, n - 1, next);
    }
  }

  // ---- Any sequence of writes and crashes -----------------------------------------------

  /** One replacement: it stops after some of its steps, all of them if none failed, and then either
      returns, removing its temporary file, or the process dies and a new one loads the file. */
  datatype Attempt = Attempt(next: Cursors, steps: nat, crashed: bool)

  function AfterAttempt(disk: Disk, a: Attempt): Disk
  {
    var stopped := AfterSteps(disk, if a.steps < |STEPS| then a.steps else |STEPS|, a.next);
    if a.crashed then stopped else stopped.(temp := None)
  }

  function AfterAttempts(disk: Disk, attempts: seq<Attempt>): Disk
  {
    if |attempts| == 0 then disk
    else AfterAttempt(AfterAttempts(disk, attempts[..|attempts| - 1]), attempts[|attempts| - 1])
  }

  /** The cursors of the last replacement that reached its rename. */
  function LastRenamed(values: Cursors, attempts: seq<Attempt>): Cursors
  {
    if |attempts| == 0 then values
    else
      var last := attempts[|attempts| - 1];
      if last.steps >= |STEPS| then last.next else LastRenamed(values, attempts[..|attempts| - 1])
  }

  /** After any writes, failures and crashes in any order, a crash at any later step finds a file that
      loads, as the cursors of the last completed replacement. */
  lemma {:induction false} AlwaysLoads(disk: Disk, values: Cursors, attempts: seq<Attempt>)
    requires Holds(disk, values)
    ensures Holds(AfterAttempts(disk, attempts), LastRenamed(values, attempts))
    ensures forall image :: image in CrashImages(AfterAttempts(disk, attempts)) ==>
              Load(image) == Some(LastRenamed(values, attempts))
  {
    if |attempts| > 0 {
      var before, last := attempts[..|attempts| - 1], attempts[|attempts| - 1];
      AlwaysLoads(disk, values, before);
      CrashLeavesOldOrNew(AfterAttempts(disk, before), LastRenamed(values, before), last.next,
                          if last.steps < |STEPS| then last.steps else |STEPS|);
    }
  }

  class FileStore {
    var values: Cursors
    var disk: Disk

    ghost predicate Valid() reads this { Holds(disk, values) }

    /** A new process on whatever disk the last one left. */
    constructor (start: Disk, loaded: Cursors)
      requires Holds(start, loaded)
      ensures Valid() && values == loaded && disk == start
    {
      values := loaded;
      disk := start;
    }

    method Get(name: string) returns (t: Option<Time>)
      ensures t == if name in values then Some(values[name]) else None
    {
      t := if name in values then Some(values[name]) else None;
    }

    /** Replaces one cursor. The first failing step, if any, ends the call with an error; the
        temporary file is removed on every return. */
    method Set(name: string, t: Time, failing: Option<Step>) returns (ok: bool)
      requires Valid()
      modifies this
      ensures Valid()
      ensures ok <==> failing == None
      ensures values == if ok then old(values)[name := t] else old(values)
      ensures disk == AfterAttempt(old(disk), Attempt(old(values)[name := t], Passed(failing), false))
    {
      var next := values[name := t];
      ghost var before := disk;
      var n := 0;
      while n < |STEPS|
        invariant 0 <= n <= |STEPS|
        invariant disk == AfterSteps(before, n, next) && values == old(values)
        invariant failing.Some? ==> failing.value !in STEPS[..n]
      {
        if failing == Some(STEPS[n]) {
          FileUntouched(before, n, next);
          StepAt(STEPS[n], n);
          disk := disk.(temp := None);
          return false;
        }
        disk := After(disk, STEPS[n], next);
        n := n + 1;
      }
      CrashLeavesOldOrNew(before, old(values), next, n);
      values := next;
      ok := true;
      if failing.Some? {
        assert STEPS[..|STEPS|] == STEPS;
        EveryStepListed(failing.value);
      }
    }
  }

  /** How many steps come before the failing one. */
  function Passed(failing: Option<Step>): nat
  {
    match failing
    case None => 8
    case Some(Marshal) => 0
    case Some(MakeDirectory) => 1
    case Some(CreateTemp) => 2
    case Some(Chmod) => 3
    case Some(Write) => 4
    case Some(Sync) => 5
    case Some(Close) => 6
    case Some(Rename) => 7
  }

  lemma StepAt(step: Step, n: nat)
    requires n < |STEPS| && step == STEPS[n]
    ensures Passed(Some(step)) == n
  {
  }

  lemma EveryStepListed(step: Step)
    ensures step in STEPS
  {
  }
}
