/** The resumable state machine: Setup, Run and Teardown of one invocation with --until, --thru and --resume. */
module Runner {
  import opened Quantities
  import opened Structures

  /** The fields that writeMetadata saves and loadState restores, besides the progress counters. */
  datatype Fields = Fields(
    yamlFilePath: string,
    isSeeded: bool,
    rootfsVolName: string,
    rootfsPartNum: int,
    bootPartNum: int,
    hasBiosPartition: bool,
    sectorSize: nat,
    rootfsSize: nat,
    gadget: Option<map<string, Volume>>,
    imageSizes: map<string, nat>,
    volumeOrder: seq<string>,
    volumeNames: map<string, string>,
    mainVolumeName: string,
    packages: seq<string>,
    snaps: seq<string>)

  const BLANK := Fields("", false, "", 0, 0, false, 0, 0, None, map[], [], map[], "", [], [])

  /**
   What a state function works on: the saved fields, the definition that every invocation reads anew (the image
   definition or model), and the files on disk.
   */
  datatype State<D, W> = State(fields: Fields, definition: D, world: W)

  datatype Outcome<D, W> = Done(state: State<D, W>) | Failed(state: State<D, W>)

  datatype StateFunc<!D, !W> = StateFunc(name: string, run: State<D, W> -> Outcome<D, W>)

  datatype Flags = Flags(until: string, thru: string, resume: bool, workDir: string, dryRun: bool, debug: bool)

  datatype Metadata = Metadata(stepsTaken: nat, currentStep: string, fields: Fields)

  // ----- saving and restoring

  /** The YAML index of a structure is not serialized. */
  function Unlabelled(ss: seq<VolumeStructure>): (r: seq<VolumeStructure>)
    ensures |r| == |ss| && forall i :: 0 <= i < |ss| ==> r[i] == ss[i].(yamlIndex := 0)
  {
    seq(|ss|, i requires 0 <= i < |ss| => ss[i].(yamlIndex := 0))
  }

  function Saved(f: Fields): Fields {
    if f.gadget.None? then f
    else f.(gadget := Some(map n | n in f.gadget.value ::
                             f.gadget.value[n].(structures := Unlabelled(f.gadget.value[n].structures))))
  }

  /** rebuildYamlIndex on every volume. */
  function Rebuilt(volumes: map<string, Volume>): map<string, Volume> {
    map n | n in volumes :: volumes[n].(structures := Reindexed(volumes[n].structures))
  }

  function Restored(f: Fields): Fields {
    if f.gadget.None? then f else f.(gadget := Some(Rebuilt(f.gadget.value)))
  }

  /** The state that a resumed invocation starts from, when the run was interrupted in state s. */
  function Reloaded<D, W>(s: State<D, W>, definition: D): State<D, W> {
    State(Restored(Saved(s.fields)), definition, s.world)
  }

  ghost predicate DistinctLabels(f: Fields) {
    f.gadget.Some? ==> forall n :: n in f.gadget.value ==> InjectiveLabels(f.gadget.value[n].structures)
  }

  /** Saving and restoring keeps everything but the labels, and makes those distinct. */
  lemma RestoreOfSave(f: Fields)
    ensures DistinctLabels(Restored(Saved(f)))
    ensures f.gadget.Some? ==>
              var g := Restored(Saved(f)).gadget;
              g.Some? && g.value.Keys == f.gadget.value.Keys
              && forall n :: n in g.value ==>
                   g.value[n] == f.gadget.value[n].(structures := Reindexed(f.gadget.value[n].structures))
                   && SameButLabels(f.gadget.value[n].structures, g.value[n].structures)
    ensures Restored(Saved(f)).(gadget := None) == f.(gadget := None)
  {
    if f.gadget.Some? {
      var volumes := f.gadget.value;
      forall n | n in volumes
        ensures Reindexed(Unlabelled(volumes[n].structures)) == Reindexed(volumes[n].structures)
      {
        ReindexForgetsLabels(volumes[n].structures);
      }
    }
  }

  /** A second save and restore changes nothing. */
  lemma RestoreIsIdempotent(f: Fields)
    ensures Restored(Saved(Restored(Saved(f)))) == Restored(Saved(f))
  {
    var g := Restored(Saved(f));
    RestoreOfSave(f);
    RestoreOfSave(g);
    if f.gadget.Some? {
      forall n | n in g.gadget.value
        ensures Restored(Saved(g)).gadget.value[n] == g.gadget.value[n]
      {
        ReindexTwice(f.gadget.value[n].structures);
      }
      assert Restored(Saved(g)).gadget.value == g.gadget.value;
    }
  }

  lemma ReindexForgetsLabels(ss: seq<VolumeStructure>)
    ensures Reindexed(Unlabelled(ss)) == Reindexed(ss)
  {
  }

  lemma ReindexTwice(ss: seq<VolumeStructure>)
    ensures Reindexed(Reindexed(ss)) == Reindexed(ss)
  {
  }

  // ----- one run

  function Names<D, W>(states: seq<StateFunc<D, W>>): (r: seq<string>)
    ensures |r| == |states| && forall i :: 0 <= i < |states| ==> r[i] == states[i].name
  {
    seq(|states|, i requires 0 <= i < |states| => states[i].name)
  }

  /** How many states a run goes through before --until or after --thru stops it. */
  function Cut(names: seq<string>, until: string, thru: string): (n: nat)
    ensures n <= |names|
  {
    if names == [] || names[0] == until then 0
    else if names[0] == thru then 1
    else 1 + Cut(names[1..], until, thru)
  }

  /** The cut comes before the first --until name, or right after the first --thru name, or at the end. */
  lemma {:induction false} CutMeans(names: seq<string>, until: string, thru: string)
    ensures var n := Cut(names, until, thru);
            && until !in names[..n]
            && (n > 0 ==> thru !in names[..n - 1])
            && (n == |names| || names[n] == until || (n > 0 && names[n - 1] == thru))
  {
    if names != [] && names[0] != until && names[0] != thru {
      CutMeans(names[1..], until, thru);
      var n := Cut(names, until, thru);
      assert names[..n] == [names[0]] + names[1..][..n - 1];
      if n > 1 {
        assert names[..n - 1] == [names[0]] + names[1..][..n - 2];
      }
    }
  }

  /** count states were completed; on failure, the state after them is the one that failed. */
  datatype Run<D, W> = Run(ok: bool, count: nat, state: State<D, W>)

  function Executed<D, W>(states: seq<StateFunc<D, W>>, n: nat, s: State<D, W>): (r: Run<D, W>)
    requires n <= |states|
    ensures r.count <= n && (r.ok ==> r.count == n) && (!r.ok ==> r.count < n)
  {
    if n == 0 then Run(true, 0, s)
    else
      var before := Executed(states, n - 1, s);
      if !before.ok then before
      else
        match states[n - 1].run(before.state)
        case Done(t) => Run(true, n, t)
        case Failed(t) => Run(false, n - 1, t)
  }

  /** The step name recorded by a run: the last state it looked at. */
  function StepRecorded(names: seq<string>, until: string, thru: string, run: Run, before: string): string
    requires run.count <= Cut(names, until, thru)
    requires !run.ok ==> run.count < Cut(names, until, thru)
  {
    if !run.ok then names[run.count]
    else if run.count > 0 && names[run.count - 1] == thru then thru
    else if run.count < |names| && names[run.count] == until then until
    else if run.count > 0 then names[run.count - 1]
    else before
  }

  lemma {:induction false} CutFrom(names: seq<string>, until: string, thru: string, i: nat)
    requires i < |names| && i <= Cut(names, until, thru)
    requires i > 0 ==> names[i - 1] != thru
    ensures names[i] == until <==> i == Cut(names, until, thru)
    ensures names[i] == thru && names[i] != until ==> Cut(names, until, thru) == i + 1
  {
    CutMeans(names, until, thru);
    var n := Cut(names, until, thru);
    if i < n {
      assert names[i] in names[..n];
      if i < n - 1 {
        assert names[i] in names[..n - 1];
      }
    }
  }

  class Machine<D, W> {
    var states: seq<StateFunc<D, W>>
    var stepsTaken: nat
    var currentStep: string
    var state: State<D, W>
    var cleanWorkDir: bool

    constructor (plan: seq<StateFunc<D, W>>, definition: D, world: W)
      ensures states == plan && stepsTaken == 0 && currentStep == "" && state == State(BLANK, definition, world)
      ensures !cleanWorkDir
    {
      states, stepsTaken, currentStep := plan, 0, "";
      state, cleanWorkDir := State(BLANK, definition, world), false;
    }

    /** validateUntilThru, over all states of the plan: it comes before --resume drops the completed ones. */
    method ValidateUntilThru(flags: Flags) returns (ok: bool)
      ensures ok == StopExists(Names(states), flags)
    {
      var searchState := "";
      if flags.until != "" {
        searchState := flags.until;
      }
      if flags.thru != "" {
        searchState := flags.thru;
      }
      ok := searchState == "";
      if !ok {
        for i := 0 to |states|
          invariant searchState !in Names(states)[..i]
        {
          if states[i].name == searchState {
            assert Names(states)[i] == searchState;
            return true;
          }
        }
        assert Names(states)[..|states|] == Names(states);
      }
    }

    /** loadState: drops the completed states and restores the saved fields. */
    method LoadState(metadata: Metadata) returns (ok: bool)
      modifies `states, `stepsTaken, `currentStep, `state
      ensures ok == (metadata.stepsTaken <= |old(states)|)
      ensures stepsTaken == metadata.stepsTaken
      ensures ok ==>
                && states == old(states)[metadata.stepsTaken..]
                && currentStep == metadata.currentStep
                && state == old(state).(fields := Restored(metadata.fields))
    {
      stepsTaken := metadata.stepsTaken;
      if stepsTaken > |states| {
        return false;
      }
      states := states[stepsTaken..];
      currentStep := metadata.currentStep;
      var fields := metadata.fields;
      if fields.gadget.Some? {
        var rebuilt := RebuildYamlIndex(fields.gadget.value);
        fields := fields.(gadget := Some(rebuilt));
      }
      state := state.(fields := fields);
      ok := true;
    }

    /** The states that displayStates lists. */
    method DisplayStates(flags: Flags) returns (shown: seq<string>)
      ensures shown == if flags.debug || flags.dryRun
                       then Names(states)[..Cut(Names(states), flags.until, flags.thru)] else []
    {
      shown := [];
      if !flags.debug && !flags.dryRun {
        return;
      }
      ghost var names := Names(states);
      for i := 0 to |states|
        invariant i <= Cut(names, flags.until, flags.thru)
        invariant i > 0 ==> names[i - 1] != flags.thru
        invariant shown == names[..i]
      {
        CutFrom(names, flags.until, flags.thru, i);
        if states[i].name == flags.until {
          return;
        }
        shown := shown + [states[i].name];
        if states[i].name == flags.thru {
          return;
        }
      }
    }

    /** Teardown: removes a temporary work directory, or else writes the metadata into the given one. */
    method Teardown(flags: Flags, writing: Writing, metadata: Option<Metadata>)
      returns (ok: bool, after: Option<Metadata>)
      ensures (ok, after) == TornDown(flags, cleanWorkDir, writing, metadata,
                                      Metadata(stepsTaken, currentStep, Saved(state.fields)))
    {
      if flags.dryRun {
        return true, metadata;
      }
      if cleanWorkDir {
        return writing.Written?, metadata;
      }
      ok, after := WriteMetadata(writing, metadata, Metadata(stepsTaken, currentStep, Saved(state.fields)));
    }

    /** Run: nothing on a dry run. */
    method RunStates(flags: Flags) returns (ok: bool)
      modifies `stepsTaken, `currentStep, `state
      ensures var names := Names(states);
              var run := if flags.dryRun then Run(true, 0, old(state))
                         else Executed(states, Cut(names, flags.until, flags.thru), old(state));
              && ok == run.ok && state == run.state
              && stepsTaken == old(stepsTaken) + run.count
              && currentStep == if flags.dryRun then old(currentStep)
                                else StepRecorded(names, flags.until, flags.thru, run, old(currentStep))
    {
      ok := true;
      if !flags.dryRun {
        ok := RunLoop(flags.until, flags.thru);
      }
    }

    /** The loop of Run: the states up to the cut, or up to the first that fails. */
    method RunLoop(until: string, thru: string) returns (ok: bool)
      modifies `stepsTaken, `currentStep, `state
      ensures var names := Names(states);
              var run := Executed(states, Cut(names, until, thru), old(state));
              && ok == run.ok && state == run.state
              && stepsTaken == old(stepsTaken) + run.count
              && currentStep == StepRecorded(names, until, thru, run, old(currentStep))
    {
      ghost var names, cut, start := Names(states), Cut(Names(states), until, thru), state;
      for i := 0 to |states|
        invariant i <= cut && (i > 0 ==> names[i - 1] != thru)
        invariant Executed(states, i, start) == Run(true, i, state)
        invariant stepsTaken == old(stepsTaken) + i
        invariant currentStep == if i == 0 then old(currentStep) else names[i - 1]
      {
        CutFrom(names, until, thru, i);
        var stateFunc := states[i];
        currentStep := stateFunc.name;
        if stateFunc.name == until {
          return true;
        }
        var outcome := stateFunc.run(state);
        state := outcome.state;
        if outcome.Failed? {
          FailureEndsRun(states, i + 1, cut, start);
          return false;
        }
        stepsTaken := stepsTaken + 1;
        if stateFunc.name == thru {
          return true;
        }
      }
      ok := true;
    }
  }

  predicate StopExists(names: seq<string>, flags: Flags) {
    var stop := if flags.thru != "" then flags.thru else flags.until;
    stop == "" || stop in names
  }

  method RebuildYamlIndex(volumes: map<string, Volume>) returns (r: map<string, Volume>)
    ensures r == Rebuilt(volumes)
  {
    r := map[];
    var names := volumes.Keys;
    while names != {}
      invariant names <= volumes.Keys && r.Keys == volumes.Keys - names
      invariant forall n :: n in r ==> r[n] == volumes[n].(structures := Reindexed(volumes[n].structures))
      decreases |names|
    {
      var n :| n in names;
      var ss := volumes[n].structures;
      for i := 0 to |ss|
        invariant |ss| == |volumes[n].structures|
        invariant forall k :: 0 <= k < |ss| ==>
                    ss[k] == if k < i then volumes[n].structures[k].(yamlIndex := k) else volumes[n].structures[k]
      {
        ss := ss[i := ss[i].(yamlIndex := i)];
      }
      assert ss == Reindexed(volumes[n].structures);
      r := r[n := volumes[n].(structures := ss)];
      names := names - {n};
    }
  }

  lemma {:induction false} FailureEndsRun<D, W>(states: seq<StateFunc<D, W>>, i: nat, n: nat, s: State<D, W>)
    requires i <= n <= |states| && !Executed(states, i, s).ok
    ensures Executed(states, n, s) == Executed(states, i, s)
    decreases n
  {
    if i < n {
      FailureEndsRun(states, i, n - 1, s);
    }
  }

  // ----- one invocation

  /** The result of one invocation: whether it succeeded, which plan positions it completed, what it saved. */
  datatype Invocation<W> = Invocation(ok: bool, from: nat, count: nat, metadata: Option<Metadata>, world: W)

  predicate InputValid(flags: Flags) {
    !(flags.thru != "" && flags.until != "") && !(flags.workDir == "" && flags.resume)
  }

  /** What Setup leaves: where the run starts and in which state. */
  datatype Start<D, W> = Rejected | Start(from: nat, step: string, state: State<D, W>)

  function SetUp<D, W>(plan: seq<StateFunc<D, W>>, definition: D, flags: Flags, metadata: Option<Metadata>, world: W)
    : (r: Start<D, W>)
    ensures r.Start? ==> r.from <= |plan|
  {
    if !InputValid(flags) || !StopExists(Names(plan), flags) then Rejected
    else if !flags.resume then Start(0, "", State(BLANK, definition, world))
    else if metadata.None? || metadata.value.stepsTaken > |plan| then Rejected
    else Start(metadata.value.stepsTaken, metadata.value.currentStep,
               State(Restored(metadata.value.fields), definition, world))
  }

  /** The run of an invocation over the states that remain. */
  function RunFrom<D, W>(plan: seq<StateFunc<D, W>>, flags: Flags, start: Start<D, W>): Run<D, W>
    requires start.Start? && start.from <= |plan|
  {
    if flags.dryRun then Run(true, 0, start.state)
    else Executed(plan[start.from..], Cut(Names(plan[start.from..]), flags.until, flags.thru), start.state)
  }

  /** How the last step of Teardown ends: opening the file truncates it, and only then it is encoded and written. */
  datatype Writing = Written | NotOpened | Truncated

  /** What a resumed run can read afterwards; a truncated or partly written file cannot be decoded. */
  function AfterWriting(writing: Writing, before: Option<Metadata>, snapshot: Metadata): Option<Metadata> {
    match writing
    case Written => Some(snapshot)
    case NotOpened => before
    case Truncated => None
  }

  function TornDown(flags: Flags, temporary: bool, writing: Writing, before: Option<Metadata>, snapshot: Metadata)
    : (bool, Option<Metadata>)
  {
    if flags.dryRun then (true, before)
    else if temporary then (writing.Written?, before)
    else (writing.Written?, AfterWriting(writing, before, snapshot))
  }

  /** writeMetadata: the file is opened with truncation before there is anything to write. */
  method WriteMetadata(writing: Writing, before: Option<Metadata>, snapshot: Metadata)
    returns (ok: bool, file: Option<Metadata>)
    ensures ok == writing.Written? && file == AfterWriting(writing, before, snapshot)
  {
    file := before;
    if writing.NotOpened? {
      return false, file;
    }
    file := None;
    if writing.Truncated? {
      return false, file;
    }
    ok, file := true, Some(snapshot);
  }

  /** Setup, Run and Teardown. */
  function Invoke<D, W>(plan: seq<StateFunc<D, W>>, definition: D, flags: Flags, writing: Writing,
                        metadata: Option<Metadata>, world: W): (r: Invocation<W>)
    ensures r.from + r.count <= |plan|
  {
    var start := SetUp(plan, definition, flags, metadata, world);
    if start.Rejected? then Invocation(false, 0, 0, metadata, world)
    else Finished(plan, flags, writing, metadata, start)
  }

  /** What Teardown writes after a successful run. */
  function Snapshot<D, W>(plan: seq<StateFunc<D, W>>, flags: Flags, start: Start<D, W>, run: Run<D, W>): Metadata
    requires start.Start? && start.from <= |plan| && !flags.dryRun && run == RunFrom(plan, flags, start)
  {
    Metadata(start.from + run.count,
             StepRecorded(Names(plan[start.from..]), flags.until, flags.thru, run, start.step),
             Saved(run.state.fields))
  }

  /** Setup of a machine: validation first, then --resume. */
  method Setup<D, W>(plan: seq<StateFunc<D, W>>, definition: D, flags: Flags, metadata: Option<Metadata>, world: W)
    returns (m: Machine<D, W>, ok: bool)
    ensures fresh(m)
    ensures var start := SetUp(plan, definition, flags, metadata, world);
            && ok == start.Start?
            && (ok ==> m.states == plan[start.from..] && m.stepsTaken == start.from
                       && m.currentStep == start.step && m.state == start.state
                       && m.cleanWorkDir == (flags.workDir == "" && !flags.dryRun))
  {
    m := new Machine(plan, definition, world);
    assert plan[0..] == plan;
    if !InputValid(flags) {
      return m, false;
    }
    ok := m.ValidateUntilThru(flags);
    if ok && flags.resume {
      if metadata.None? {
        return m, false;
      }
      ok := m.LoadState(metadata.value);
    }
    if ok && flags.workDir == "" && !flags.dryRun {
      m.cleanWorkDir := true;
    }
  }

  /** executeStateMachine; `shown` is what displayStates printed. */
  method Execute<D, W>(plan: seq<StateFunc<D, W>>, definition: D, flags: Flags, writing: Writing,
                       metadata: Option<Metadata>, world: W)
    returns (r: Invocation<W>, shown: seq<string>)
    ensures r == Invoke(plan, definition, flags, writing, metadata, world)
    ensures var start := SetUp(plan, definition, flags, metadata, world);
            shown == if start.Start? && (flags.debug || flags.dryRun) then
                       var names := Names(plan[start.from..]);
                       names[..Cut(names, flags.until, flags.thru)]
                     else []
  {
    var m, ok := Setup(plan, definition, flags, metadata, world);
    if !ok {
      return Invocation(false, 0, 0, metadata, world), [];
    }
    ghost var start := SetUp(plan, definition, flags, metadata, world);
    shown := m.DisplayStates(flags);
    r := RunAndTeardown(m, flags, writing, metadata, plan, start);
  }

  /** Run and Teardown of a machine that was set up; Teardown follows a successful run only. */
  function Finished<D, W>(plan: seq<StateFunc<D, W>>, flags: Flags, writing: Writing, metadata: Option<Metadata>,
                          start: Start<D, W>): Invocation<W>
    requires start.Start? && start.from <= |plan|
  {
    var run := RunFrom(plan, flags, start);
    if !run.ok || flags.dryRun then Invocation(run.ok, start.from, run.count, metadata, run.state.world)
    else
      var (ok, after) := TornDown(flags, flags.workDir == "", writing, metadata, Snapshot(plan, flags, start, run));
      Invocation(ok, start.from, run.count, after, run.state.world)
  }

  method RunAndTeardown<D, W>(m: Machine<D, W>, flags: Flags, writing: Writing, metadata: Option<Metadata>,
                              ghost plan: seq<StateFunc<D, W>>, ghost start: Start<D, W>)
    returns (r: Invocation<W>)
    requires start.Start? && start.from <= |plan| && m.states == plan[start.from..]
    requires m.stepsTaken == start.from && m.currentStep == start.step && m.state == start.state
    requires m.cleanWorkDir == (flags.workDir == "" && !flags.dryRun)
    modifies m
    ensures r == Finished(plan, flags, writing, metadata, start)
  {
    var from := m.stepsTaken;
    var ok := m.RunStates(flags);
    ghost var run := RunFrom(plan, flags, start);
    assert ok == run.ok && m.state == run.state && m.stepsTaken == from + run.count;
    var after := metadata;
    if ok {
      assert !flags.dryRun ==>
          Metadata(m.stepsTaken, m.currentStep, Saved(m.state.fields)) == Snapshot(plan, flags, start, run);
      ok, after := m.Teardown(flags, writing, metadata);
    }
    r := Invocation(ok, from, m.stepsTaken - from, after, m.state.world);
  }

  /** The invocation gets as far as opening its metadata file. */
  predicate Opens<D, W>(plan: seq<StateFunc<D, W>>, definition: D, flags: Flags, writing: Writing,
                        metadata: Option<Metadata>, world: W)
  {
    var start := SetUp(plan, definition, flags, metadata, world);
    start.Start? && RunFrom(plan, flags, start).ok && !flags.dryRun && flags.workDir != "" && !writing.NotOpened?
  }

  /**
   A failed invocation leaves the saved metadata untouched if and only if it fails before the file is opened. Without
   earlier metadata there is nothing to lose.
   */
  lemma FailureKeepsMetadataIff<D, W>(plan: seq<StateFunc<D, W>>, definition: D, flags: Flags, writing: Writing,
                                      metadata: Option<Metadata>, world: W)
    requires !Invoke(plan, definition, flags, writing, metadata, world).ok
    ensures var r := Invoke(plan, definition, flags, writing, metadata, world);
            && (r.metadata == metadata
                <==> metadata.None? || !Opens(plan, definition, flags, writing, metadata, world))
            && (Opens(plan, definition, flags, writing, metadata, world) ==> r.metadata.None?)
  {
  }

  /**
   After a failed invocation a valid --resume is set up if and only if there was metadata that fits the plan and the
   failed invocation did not open the file. It then starts where the failed invocation would have resumed, whatever
   states that one completed.
   */
  lemma ResumableAfterFailureIff<D, W>(plan: seq<StateFunc<D, W>>, definition: D, flags: Flags, writing: Writing,
                                       metadata: Option<Metadata>, world: W, later: Flags, after: W)
    requires !Invoke(plan, definition, flags, writing, metadata, world).ok
    requires later.resume && InputValid(later) && StopExists(Names(plan), later)
    ensures var r := Invoke(plan, definition, flags, writing, metadata, world);
            var start := SetUp(plan, definition, later, r.metadata, after);
            && (start.Start? <==> metadata.Some? && metadata.value.stepsTaken <= |plan|
                                  && !Opens(plan, definition, flags, writing, metadata, world))
            && (start.Start? ==> start == Start(metadata.value.stepsTaken, metadata.value.currentStep,
                                                State(Restored(metadata.value.fields), definition, after)))
  {
    FailureKeepsMetadataIff(plan, definition, flags, writing, metadata, world);
  }

  /**
   The states that displayStates lists are, in order, exactly those that a successful run completes; a run that fails
   has completed a proper prefix of them, and the next one listed is the one that failed.
   */
  lemma DisplayedIsExecuted<D, W>(plan: seq<StateFunc<D, W>>, flags: Flags, start: Start<D, W>)
    requires start.Start? && start.from <= |plan| && !flags.dryRun
    ensures var rest, run := plan[start.from..], RunFrom(plan, flags, start);
            var shown := Names(rest)[..Cut(Names(rest), flags.until, flags.thru)];
            && run.count <= |rest| && (run.ok <==> run.count == |shown|)
            && shown[..run.count] == Names(rest[..run.count])
            && (!run.ok ==>
                  && run.count < |shown| && shown[run.count] == rest[run.count].name
                  && var before := Executed(rest, run.count, start.state);
                     before.ok && rest[run.count].run(before.state).Failed?)
  {
    var rest := plan[start.from..];
    if !RunFrom(plan, flags, start).ok {
      FailureIsNext(rest, Cut(Names(rest), flags.until, flags.thru), start.state);
    }
  }

  /**
   A stop name that only completed states carry passes the validation of a resumed run, which looks at the whole plan,
   and then stops nothing.
   */
  lemma PassedStopIsIgnored<D, W>(plan: seq<StateFunc<D, W>>, definition: D, flags: Flags, metadata: Metadata, world: W)
    requires InputValid(flags) && flags.resume && metadata.stepsTaken <= |plan|
    requires (if flags.thru != "" then flags.thru else flags.until) in Names(plan)[..metadata.stepsTaken]
    requires var left := Names(plan)[metadata.stepsTaken..]; flags.until !in left && flags.thru !in left
    ensures var start := SetUp(plan, definition, flags, Some(metadata), world);
            start.Start? && Cut(Names(plan[start.from..]), flags.until, flags.thru) == |plan| - start.from
  {
    var names, k := Names(plan), metadata.stepsTaken;
    assert Names(plan[k..]) == names[k..];
    assert forall x :: x in names[..k] ==> x in names;
    CutMeans(names[k..], flags.until, flags.thru);
  }

  lemma {:induction false} FailureIsNext<D, W>(states: seq<StateFunc<D, W>>, n: nat, s: State<D, W>)
    requires n <= |states| && !Executed(states, n, s).ok
    ensures var run := Executed(states, n, s);
            var before := Executed(states, run.count, s);
            before.ok && states[run.count].run(before.state) == Failed(run.state)
  {
    if Executed(states, n - 1, s).ok {
    } else {
      FailureIsNext(states, n - 1, s);
    }
  }
}
