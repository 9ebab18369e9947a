/** What a chain of invocations with --until, --thru and --resume amounts to. */
module Chains {
  import opened Quantities
  import opened Runner

  /** A state of a run with the definition unchanged and distinct labels. */
  ghost predicate Sound<D, W>(s: State<D, W>, definition: D) {
    s.definition == definition && DistinctLabels(s.fields)
  }

  /**
   A state function that cannot tell an interrupted run from an uninterrupted one: started from the reloaded state, it
   has the same outcome up to reloading. It leaves the definition alone, as changes to that are not saved.
   */
  ghost predicate ResumeSafe<D(!new), W(!new)>(f: StateFunc<D, W>, definition: D) {
    forall s: State<D, W> :: Sound(s, definition) ==> SameOutcome(f.run(s), f.run(Reloaded(s, definition)), definition)
  }

  ghost predicate SameOutcome<D, W>(a: Outcome<D, W>, b: Outcome<D, W>, definition: D) {
    && (a.Done? <==> b.Done?)
    && (a.Done? ==> Sound(a.state, definition) && Sound(b.state, definition)
                    && Reloaded(a.state, definition) == Reloaded(b.state, definition))
  }

  /**
   Two versions of a state function, such as the same function with other orders of iteration over maps: the second,
   from the reloaded state, has the outcome of the first from the state itself. This need only hold of states that
   satisfy an invariant, which both versions keep.
   */
  ghost predicate Interchangeable<D(!new), W(!new)>(f: StateFunc<D, W>, g: StateFunc<D, W>, definition: D,
                                                    inv: State<D, W> -> bool)
  {
    && f.name == g.name
    && forall s: State<D, W> :: Sound(s, definition) && inv(s) ==>
         && SameOutcome(f.run(s), g.run(Reloaded(s, definition)), definition)
         && Keeps(f.run(s), inv) && Keeps(g.run(Reloaded(s, definition)), inv)
  }

  ghost predicate Keeps<D, W>(o: Outcome<D, W>, inv: State<D, W> -> bool) {
    o.Done? ==> inv(o.state)
  }

  /** A resume-safe function is one that is interchangeable with itself whatever the state. */
  lemma ResumeSafeIsInterchangeable<D(!new), W(!new)>(f: StateFunc<D, W>, definition: D, inv: State<D, W> -> bool)
    requires forall s :: inv(s)
    ensures ResumeSafe(f, definition) <==> Interchangeable(f, f, definition, inv)
  {
  }

  /** Each state function of the plan has a version in the other plan, and those stand for each other as well. */
  ghost predicate SamePlans<D(!new), W(!new)>(plan: seq<StateFunc<D, W>>, other: seq<StateFunc<D, W>>, definition: D,
                                              inv: State<D, W> -> bool)
  {
    && |plan| == |other|
    && forall k :: 0 <= k < |plan| ==>
         Interchangeable(plan[k], other[k], definition, inv) && Interchangeable(other[k], other[k], definition, inv)
  }

  ghost predicate Alike<D, W>(s: State<D, W>, t: State<D, W>, definition: D, inv: State<D, W> -> bool) {
    && Sound(s, definition) && Sound(t, definition) && inv(s) && inv(t)
    && Reloaded(s, definition) == Reloaded(t, definition)
  }

  /** Two runs of versions of the same states, from states that reload alike, end in states that reload alike. */
  lemma {:induction false} RunsStayAlike<D(!new), W(!new)>(plan: seq<StateFunc<D, W>>, other: seq<StateFunc<D, W>>,
                                                           n: nat, s: State<D, W>, t: State<D, W>, definition: D,
                                                           inv: State<D, W> -> bool)
    requires SamePlans(plan, other, definition, inv) && n <= |plan| && Alike(s, t, definition, inv)
    ensures var a, b := Executed(plan, n, s), Executed(other, n, t);
            a.ok == b.ok && a.count == b.count && (a.ok ==> Alike(a.state, b.state, definition, inv))
  {
    if n > 0 {
      RunsStayAlike(plan, other, n - 1, s, t, definition, inv);
      var a, b := Executed(plan, n - 1, s), Executed(other, n - 1, t);
      if a.ok {
        StepStaysAlike(plan[n - 1], other[n - 1], a.state, b.state, definition, inv);
      }
    }
  }

  lemma StepStaysAlike<D(!new), W(!new)>(f: StateFunc<D, W>, g: StateFunc<D, W>, s: State<D, W>, t: State<D, W>,
                                         definition: D, inv: State<D, W> -> bool)
    requires Interchangeable(f, g, definition, inv) && Interchangeable(g, g, definition, inv)
    requires Alike(s, t, definition, inv)
    ensures f.run(s).Done? <==> g.run(t).Done?
    ensures f.run(s).Done? ==> Alike(f.run(s).state, g.run(t).state, definition, inv)
  {
    assert SameOutcome(f.run(s), g.run(Reloaded(s, definition)), definition);
    assert SameOutcome(g.run(t), g.run(Reloaded(t, definition)), definition);
  }

  lemma {:induction false} RunsCompose<D, W>(plan: seq<StateFunc<D, W>>, k: nat, n: nat, s: State<D, W>)
    requires k + n <= |plan| && Executed(plan, k, s).ok
    ensures var a, b := Executed(plan, k + n, s), Executed(plan[k..], n, Executed(plan, k, s).state);
            a.ok == b.ok && a.count == k + b.count && a.state == b.state
  {
    if n > 0 {
      RunsCompose(plan, k, n - 1, s);
      assert plan[k..][n - 1] == plan[k + n - 1];
    }
  }

  /** What differs between invocations: the flags, how the metadata is written, and the versions of the states. */
  datatype Call<!D, !W> = Call(plan: seq<StateFunc<D, W>>, flags: Flags, writing: Writing)

  /** A first invocation and --resume invocations, each on the metadata and files that the one before it left. */
  function Invocations<D, W>(definition: D, world: W, calls: seq<Call<D, W>>): (r: seq<Invocation<W>>)
    ensures |r| == |calls| && forall i :: 0 <= i < |r| ==> r[i].from + r[i].count <= |calls[i].plan|
  {
    if calls == [] then []
    else
      var before, call := Invocations(definition, world, calls[..|calls| - 1]), calls[|calls| - 1];
      var last := if before == [] then Invocation(true, 0, 0, None, world) else before[|before| - 1];
      before + [Invoke(call.plan, definition, call.flags, call.writing, last.metadata, last.world)]
  }

  /** Only the first is not a resumed one, and all keep a work directory. */
  predicate IsChain<D, W>(calls: seq<Call<D, W>>) {
    forall i :: 0 <= i < |calls| ==>
      calls[i].flags.resume == (i > 0) && !calls[i].flags.dryRun && calls[i].flags.workDir != ""
  }

  /** The names of the states that the invocations completed, one after the other. */
  function Trace<D, W>(plan: seq<StateFunc<D, W>>, runs: seq<Invocation<W>>): seq<string>
    requires forall i :: 0 <= i < |runs| ==> runs[i].from + runs[i].count <= |plan|
  {
    if runs == [] then []
    else
      var last := runs[|runs| - 1];
      Trace(plan, runs[..|runs| - 1]) + Names(plan)[last.from..last.from + last.count]
  }

  /**
   The saved metadata and the files on disk are at the point that one uninterrupted run reaches after the saved number
   of steps; the fields agree up to what saving and restoring forgets, the labels.
   */
  ghost predicate Reached<D, W>(plan: seq<StateFunc<D, W>>, definition: D, start: W, metadata: Metadata, world: W) {
    && metadata.stepsTaken <= |plan|
    && var whole := Executed(plan, metadata.stepsTaken, State(BLANK, definition, start));
       && whole.ok && Sound(whole.state, definition)
       && State(Restored(metadata.fields), definition, world) == Reloaded(whole.state, definition)
  }

  /** Where a list of invocations has got to: the last metadata is Reached, the trace is the plan up to there. */
  ghost predicate ChainReached<D, W>(plan: seq<StateFunc<D, W>>, definition: D, start: W, runs: seq<Invocation<W>>) {
    && runs != []
    && (forall i :: 0 <= i < |runs| ==> runs[i].from + runs[i].count <= |plan|)
    && var last := runs[|runs| - 1];
       && last.metadata.Some?
       && Reached(plan, definition, start, last.metadata.value, last.world)
       && Trace(plan, runs) == Names(plan)[..last.metadata.value.stepsTaken]
  }

  /** The invariant survives saving and restoring, and holds at the start. */
  ghost predicate Survives<D(!new), W(!new)>(inv: State<D, W> -> bool, definition: D, world: W) {
    && inv(State(BLANK, definition, world))
    && forall s: State<D, W> :: inv(s) ==> inv(Reloaded(s, definition))
  }

  /** The whole run satisfies the invariant after n steps. */
  ghost predicate WholeKeeps<D, W>(plan: seq<StateFunc<D, W>>, definition: D, start: W, n: nat,
                                      inv: State<D, W> -> bool)
    requires n <= |plan|
  {
    inv(Executed(plan, n, State(BLANK, definition, start)).state)
  }

  /** Where the invocations have got to, and the whole run satisfies the invariant there. */
  ghost predicate ChainAt<D, W>(plan: seq<StateFunc<D, W>>, definition: D, start: W, runs: seq<Invocation<W>>,
                                inv: State<D, W> -> bool)
  {
    && ChainReached(plan, definition, start, runs)
    && WholeKeeps(plan, definition, start, runs[|runs| - 1].metadata.value.stepsTaken, inv)
  }

  /** A chain whose invocations all use versions of one plan. */
  ghost predicate ChainOf<D(!new), W(!new)>(plan: seq<StateFunc<D, W>>, definition: D, calls: seq<Call<D, W>>,
                                            inv: State<D, W> -> bool)
  {
    IsChain(calls) && forall i :: 0 <= i < |calls| ==> SamePlans(plan, calls[i].plan, definition, inv)
  }

  lemma ChainOfFewer<D(!new), W(!new)>(plan: seq<StateFunc<D, W>>, definition: D, calls: seq<Call<D, W>>,
                                       inv: State<D, W> -> bool)
    requires calls != [] && ChainOf(plan, definition, calls, inv)
    ensures ChainOf(plan, definition, calls[..|calls| - 1], inv)
  {
  }

  /**
   Any chain of successful invocations completes a prefix of the plan, each state once; the saved step count is its
   length, and fields and files are those of one uninterrupted run of that prefix. Every invocation may use versions of
   the state functions of its own.
   */
  lemma {:induction false} ChainIsOneRun<D(!new), W(!new)>(plan: seq<StateFunc<D, W>>, definition: D, world: W,
                                                           calls: seq<Call<D, W>>, inv: State<D, W> -> bool)
    requires calls != [] && ChainOf(plan, definition, calls, inv) && Survives(inv, definition, world)
    requires forall r :: r in Invocations(definition, world, calls) ==> r.ok
    ensures ChainAt(plan, definition, world, Invocations(definition, world, calls), inv)
  {
    var n := |calls| - 1;
    if n == 0 {
      var r := OnlyInvocation(definition, world, calls);
      ChainStart(plan, definition, world, calls[0], r, inv);
    } else {
      var before, r := LastInvocation(definition, world, calls);
      ChainOfFewer(plan, definition, calls, inv);
      ChainIsOneRun(plan, definition, world, calls[..n], inv);
      ChainStep(plan, definition, world, before, calls[n], r, inv);
    }
  }

  lemma OnlyInvocation<D, W>(definition: D, world: W, calls: seq<Call<D, W>>) returns (r: Invocation<W>)
    requires |calls| == 1
    ensures Invocations(definition, world, calls) == [r]
    ensures r == Invoke(calls[0].plan, definition, calls[0].flags, calls[0].writing, None, world)
    ensures r in Invocations(definition, world, calls)
  {
    assert calls[..0] == [];
    r := Invocations(definition, world, calls)[0];
  }

  lemma LastInvocation<D, W>(definition: D, world: W, calls: seq<Call<D, W>>)
    returns (before: seq<Invocation<W>>, r: Invocation<W>)
    requires |calls| > 1
    ensures before == Invocations(definition, world, calls[..|calls| - 1]) && |before| == |calls| - 1
    ensures Invocations(definition, world, calls) == before + [r]
    ensures var call, last := calls[|calls| - 1], before[|before| - 1];
            r == Invoke(call.plan, definition, call.flags, call.writing, last.metadata, last.world)
    ensures forall x :: x in before + [r] <==> x in before || x == r
  {
    before := Invocations(definition, world, calls[..|calls| - 1]);
    r := Invocations(definition, world, calls)[|calls| - 1];
  }

  lemma SameNames<D(!new), W(!new)>(plan: seq<StateFunc<D, W>>, other: seq<StateFunc<D, W>>, definition: D,
                                    inv: State<D, W> -> bool)
    requires SamePlans(plan, other, definition, inv)
    ensures Names(plan) == Names(other)
  {
    forall k | 0 <= k < |plan| ensures plan[k].name == other[k].name {
      assert Interchangeable(plan[k], other[k], definition, inv);
    }
  }

  lemma ChainStart<D(!new), W(!new)>(plan: seq<StateFunc<D, W>>, definition: D, start: W, call: Call<D, W>,
                                     r: Invocation<W>, inv: State<D, W> -> bool)
    requires !call.flags.resume && !call.flags.dryRun && call.flags.workDir != "" && r.ok
    requires r == Invoke(call.plan, definition, call.flags, call.writing, None, start)
    requires SamePlans(plan, call.plan, definition, inv) && Survives(inv, definition, start)
    ensures ChainAt(plan, definition, start, [r], inv)
  {
    var blank := State(BLANK, definition, start);
    var run := InvokedRun(call, definition, None, start, r, 0, blank);
    assert call.plan[0..] == call.plan;
    RunsStayAlike(plan, call.plan, r.count, blank, blank, definition, inv);
    SavedIsReached(plan, definition, start, r.count, run.state, r.metadata.value);
    SameNames(plan, call.plan, definition, inv);
    assert [r][..0] == [];
  }

  lemma ChainStep<D(!new), W(!new)>(plan: seq<StateFunc<D, W>>, definition: D, start: W, runs: seq<Invocation<W>>,
                                    call: Call<D, W>, r: Invocation<W>, inv: State<D, W> -> bool)
    requires ChainAt(plan, definition, start, runs, inv)
    requires call.flags.resume && !call.flags.dryRun && call.flags.workDir != "" && r.ok
    requires var last := runs[|runs| - 1];
             r == Invoke(call.plan, definition, call.flags, call.writing, last.metadata, last.world)
    requires SamePlans(plan, call.plan, definition, inv) && Survives(inv, definition, start)
    ensures ChainAt(plan, definition, start, runs + [r], inv)
  {
    var last := runs[|runs| - 1];
    var metadata := last.metadata.value;
    ResumedRun(plan, definition, start, metadata, last.world, call, r, inv);
    ChainGrows(plan, definition, start, runs, r, inv);
  }

  lemma ChainGrows<D, W>(plan: seq<StateFunc<D, W>>, definition: D, start: W, runs: seq<Invocation<W>>,
                         r: Invocation<W>, inv: State<D, W> -> bool)
    requires ChainAt(plan, definition, start, runs, inv) && r.from == runs[|runs| - 1].metadata.value.stepsTaken
    requires r.metadata.Some? && r.metadata.value.stepsTaken == r.from + r.count <= |plan|
    requires Reached(plan, definition, start, r.metadata.value, r.world)
    requires WholeKeeps(plan, definition, start, r.from + r.count, inv)
    ensures ChainAt(plan, definition, start, runs + [r], inv)
  {
    assert (runs + [r])[..|runs|] == runs;
    NamesExtend(Names(plan), r.from, r.count);
  }

  lemma ResumedRun<D(!new), W(!new)>(plan: seq<StateFunc<D, W>>, definition: D, start: W, metadata: Metadata, world: W,
                                     call: Call<D, W>, r: Invocation<W>, inv: State<D, W> -> bool)
    requires Reached(plan, definition, start, metadata, world)
    requires WholeKeeps(plan, definition, start, metadata.stepsTaken, inv)
    requires call.flags.resume && !call.flags.dryRun && call.flags.workDir != "" && r.ok
    requires r == Invoke(call.plan, definition, call.flags, call.writing, Some(metadata), world)
    requires SamePlans(plan, call.plan, definition, inv) && Survives(inv, definition, start)
    ensures r.from == metadata.stepsTaken && r.metadata.Some?
    ensures r.metadata.value.stepsTaken == r.from + r.count <= |plan|
    ensures Reached(plan, definition, start, r.metadata.value, r.world)
    ensures WholeKeeps(plan, definition, start, r.from + r.count, inv)
  {
    assert |plan| == |call.plan|;
    var run := InvokedRun(call, definition, Some(metadata), world, r, metadata.stepsTaken,
                          State(Restored(metadata.fields), definition, world));
    assert r.from + r.count <= |plan|;
    ReachedFurther(plan, call.plan, definition, start, metadata, world, run, r.metadata.value, inv);
  }

  lemma NamesExtend(names: seq<string>, from: nat, count: nat)
    requires from + count <= |names|
    ensures names[..from] + names[from..from + count] == names[..from + count]
  {
  }

  /** The run behind a successful invocation, which started at `from` in state s. */
  lemma InvokedRun<D, W>(call: Call<D, W>, definition: D, metadata: Option<Metadata>, world: W, r: Invocation<W>,
                         from: nat, s: State<D, W>)
    returns (run: Run<D, W>)
    requires r == Invoke(call.plan, definition, call.flags, call.writing, metadata, world) && r.ok
    requires !call.flags.dryRun && call.flags.workDir != "" && from <= |call.plan|
    requires if call.flags.resume
             then metadata.Some? && from == metadata.value.stepsTaken
                  && s == State(Restored(metadata.value.fields), definition, world)
             else from == 0 && s == State(BLANK, definition, world)
    ensures r.from == from && r.metadata.Some? && from + r.count <= |call.plan|
    ensures run == Executed(call.plan[from..], r.count, s) && run.ok && run.count == r.count
    ensures r.world == run.state.world
    ensures r.metadata.value.stepsTaken == from + r.count && r.metadata.value.fields == Saved(run.state.fields)
  {
    run := Executed(call.plan[from..], r.count, s);
  }

  lemma ReloadedAlike<D, W>(s: State<D, W>, definition: D)
    ensures DistinctLabels(Reloaded(s, definition).fields)
    ensures Reloaded(Reloaded(s, definition), definition) == Reloaded(s, definition)
  {
    RestoreOfSave(s.fields);
    RestoreIsIdempotent(s.fields);
  }

  lemma ResumedIsAlike<D(!new), W(!new)>(plan: seq<StateFunc<D, W>>, definition: D, start: W, metadata: Metadata,
                                         world: W, inv: State<D, W> -> bool)
    requires Survives(inv, definition, start) && Reached(plan, definition, start, metadata, world)
    requires WholeKeeps(plan, definition, start, metadata.stepsTaken, inv)
    ensures var whole := Executed(plan, metadata.stepsTaken, State(BLANK, definition, start));
            whole.ok && Alike(whole.state, State(Restored(metadata.fields), definition, world), definition, inv)
  {
    ReloadedAlike(Executed(plan, metadata.stepsTaken, State(BLANK, definition, start)).state, definition);
  }

  lemma ReachedFurther<D(!new), W(!new)>(plan: seq<StateFunc<D, W>>, other: seq<StateFunc<D, W>>, definition: D,
                                         start: W, metadata: Metadata, world: W, run: Run<D, W>, after: Metadata,
                                         inv: State<D, W> -> bool)
    requires SamePlans(plan, other, definition, inv) && Survives(inv, definition, start)
    requires Reached(plan, definition, start, metadata, world) && metadata.stepsTaken + run.count <= |plan| && run.ok
    requires WholeKeeps(plan, definition, start, metadata.stepsTaken, inv)
    requires var resumed := State(Restored(metadata.fields), definition, world);
             run == Executed(other[metadata.stepsTaken..], run.count, resumed)
    requires after.stepsTaken == metadata.stepsTaken + run.count && after.fields == Saved(run.state.fields)
    ensures Reached(plan, definition, start, after, run.state.world)
    ensures WholeKeeps(plan, definition, start, after.stepsTaken, inv)
  {
    var k, resumed := metadata.stepsTaken, State(Restored(metadata.fields), definition, world);
    var n := k + run.count;
    ResumedIsAlike(plan, definition, start, metadata, world, inv);
    ContinueAlike(plan, other, k, run.count, definition, start, resumed, inv);
    AlikeIsReached(plan, definition, start, n, run.state, after, inv);
  }

  lemma AlikeIsReached<D(!new), W(!new)>(plan: seq<StateFunc<D, W>>, definition: D, start: W, n: nat, s: State<D, W>,
                                         metadata: Metadata, inv: State<D, W> -> bool)
    requires n <= |plan| && metadata.stepsTaken == n && metadata.fields == Saved(s.fields)
    requires var whole := Executed(plan, n, State(BLANK, definition, start));
             whole.ok && Alike(whole.state, s, definition, inv)
    ensures Reached(plan, definition, start, metadata, s.world) && WholeKeeps(plan, definition, start, n, inv)
  {
    SavedIsReached(plan, definition, start, n, s, metadata);
  }

  lemma SavedIsReached<D(!new), W(!new)>(plan: seq<StateFunc<D, W>>, definition: D, start: W, n: nat, s: State<D, W>,
                                         metadata: Metadata)
    requires n <= |plan| && metadata.stepsTaken == n && metadata.fields == Saved(s.fields)
    requires var whole := Executed(plan, n, State(BLANK, definition, start));
             && whole.ok && Sound(whole.state, definition)
             && Reloaded(s, definition) == Reloaded(whole.state, definition)
    ensures Reached(plan, definition, start, metadata, s.world)
  {
  }

  lemma ContinueAlike<D(!new), W(!new)>(plan: seq<StateFunc<D, W>>, other: seq<StateFunc<D, W>>, k: nat, count: nat,
                                        definition: D, start: W, resumed: State<D, W>, inv: State<D, W> -> bool)
    requires k + count <= |plan| && SamePlans(plan, other, definition, inv)
    requires var whole := Executed(plan, k, State(BLANK, definition, start));
             whole.ok && Alike(whole.state, resumed, definition, inv)
    requires Executed(other[k..], count, resumed).ok
    ensures var whole := Executed(plan, k + count, State(BLANK, definition, start));
            whole.ok && Alike(whole.state, Executed(other[k..], count, resumed).state, definition, inv)
  {
    RunsStayAlike(plan[k..], other[k..], count, Executed(plan, k, State(BLANK, definition, start)).state, resumed,
                  definition, inv);
    RunsCompose(plan, k, count, State(BLANK, definition, start));
  }

  // ----- a chain whose invocations have versions of their own

  /** Each state function is one that some invocation has in that place. */
  ghost predicate MixOf<D, W>(plan: seq<StateFunc<D, W>>, calls: seq<Call<D, W>>) {
    && calls != [] && |plan| == |calls[0].plan|
    && forall k :: 0 <= k < |plan| ==>
         exists i :: 0 <= i < |calls| && k < |calls[i].plan| && plan[k] == calls[i].plan[k]
  }

  /** The plans of all invocations have the same names, and no state function tells a resumed run. */
  ghost predicate AllVersions<D(!new), W(!new)>(calls: seq<Call<D, W>>, definition: D, inv: State<D, W> -> bool) {
    && (forall i :: 0 <= i < |calls| ==> Names(calls[i].plan) == Names(calls[0].plan))
    && (forall i, k :: 0 <= i < |calls| && 0 <= k < |calls[i].plan| ==>
          Interchangeable(calls[i].plan[k], calls[i].plan[k], definition, inv))
  }

  lemma MixIsSafe<D(!new), W(!new)>(plan: seq<StateFunc<D, W>>, calls: seq<Call<D, W>>, definition: D,
                                    inv: State<D, W> -> bool)
    requires MixOf(plan, calls) && AllVersions(calls, definition, inv)
    ensures SamePlans(plan, plan, definition, inv) && Names(plan) == Names(calls[0].plan)
  {
    forall k | 0 <= k < |plan|
      ensures Interchangeable(plan[k], plan[k], definition, inv) && plan[k].name == calls[0].plan[k].name
    {
      var i :| 0 <= i < |calls| && k < |calls[i].plan| && plan[k] == calls[i].plan[k];
      assert Names(calls[i].plan)[k] == Names(calls[0].plan)[k];
    }
  }

  lemma {:induction false} ExecutedOfPrefix<D, W>(plan: seq<StateFunc<D, W>>, other: seq<StateFunc<D, W>>, n: nat,
                                                  s: State<D, W>)
    requires n <= |plan| && n <= |other| && plan[..n] == other[..n]
    ensures Executed(plan, n, s) == Executed(other, n, s)
  {
    if n > 0 {
      assert plan[n - 1] == plan[..n][n - 1] == other[n - 1];
      assert plan[..n - 1] == plan[..n][..n - 1] == other[..n - 1];
      ExecutedOfPrefix(plan, other, n - 1, s);
    }
  }

  lemma {:induction false} TraceOfNames<D, W>(plan: seq<StateFunc<D, W>>, other: seq<StateFunc<D, W>>,
                                              runs: seq<Invocation<W>>)
    requires Names(plan) == Names(other) && forall i :: 0 <= i < |runs| ==> runs[i].from + runs[i].count <= |plan|
    ensures |plan| == |other| && Trace(plan, runs) == Trace(other, runs)
  {
    assert |plan| == |Names(plan)| == |Names(other)| == |other|;
    if runs != [] {
      TraceOfNames(plan, other, runs[..|runs| - 1]);
    }
  }

  /** What a chain has reached depends on the states behind it alone. */
  lemma ReachedByPrefix<D, W>(plan: seq<StateFunc<D, W>>, other: seq<StateFunc<D, W>>, definition: D, start: W,
                              runs: seq<Invocation<W>>, inv: State<D, W> -> bool)
    requires ChainAt(plan, definition, start, runs, inv) && Names(plan) == Names(other)
    requires var n := runs[|runs| - 1].metadata.value.stepsTaken; n <= |other| && plan[..n] == other[..n]
    ensures ChainAt(other, definition, start, runs, inv)
  {
    TraceOfNames(plan, other, runs);
    ExecutedOfPrefix(plan, other, runs[|runs| - 1].metadata.value.stepsTaken, State(BLANK, definition, start));
  }

  /** What a resumed invocation does depends on the states ahead of it alone. */
  lemma InvokeOfRest<D, W>(plan: seq<StateFunc<D, W>>, other: seq<StateFunc<D, W>>, definition: D, flags: Flags,
                           writing: Writing, metadata: Metadata, world: W)
    requires flags.resume && Names(plan) == Names(other)
    requires metadata.stepsTaken <= |plan| == |other| && plan[metadata.stepsTaken..] == other[metadata.stepsTaken..]
    ensures Invoke(plan, definition, flags, writing, Some(metadata), world)
         == Invoke(other, definition, flags, writing, Some(metadata), world)
  {
  }

  /** A chain whose invocations each have their own versions. */
  ghost predicate ChainOfVersions<D(!new), W(!new)>(calls: seq<Call<D, W>>, definition: D, inv: State<D, W> -> bool) {
    IsChain(calls) && AllVersions(calls, definition, inv)
  }

  lemma FewerVersions<D(!new), W(!new)>(calls: seq<Call<D, W>>, definition: D, inv: State<D, W> -> bool)
    requires calls != [] && ChainOfVersions(calls, definition, inv)
    ensures ChainOfVersions(calls[..|calls| - 1], definition, inv)
  {
  }

  lemma FirstIsItsMix<D(!new), W(!new)>(definition: D, world: W, calls: seq<Call<D, W>>, inv: State<D, W> -> bool)
    requires |calls| == 1 && ChainOfVersions(calls, definition, inv) && Survives(inv, definition, world)
    requires forall r :: r in Invocations(definition, world, calls) ==> r.ok
    ensures MixOf(calls[0].plan, calls)
    ensures ChainAt(calls[0].plan, definition, world, Invocations(definition, world, calls), inv)
  {
    var r := OnlyInvocation(definition, world, calls);
    MixIsSafe(calls[0].plan, calls, definition, inv);
    ChainStart(calls[0].plan, definition, world, calls[0], r, inv);
  }

  /**
   The invocations of a chain may have state functions with choices of their own, such as an order of iteration over a
   map. If none of these can tell a resumed run, then the chain is one uninterrupted run of a plan in which every state
   is as one of the invocations has it.
   */
  lemma {:induction false} ChainIsSomeRun<D(!new), W(!new)>(definition: D, world: W, calls: seq<Call<D, W>>,
                                                            inv: State<D, W> -> bool)
    returns (plan: seq<StateFunc<D, W>>)
    requires calls != [] && ChainOfVersions(calls, definition, inv) && Survives(inv, definition, world)
    requires forall r :: r in Invocations(definition, world, calls) ==> r.ok
    ensures MixOf(plan, calls) && ChainAt(plan, definition, world, Invocations(definition, world, calls), inv)
  {
    var n := |calls| - 1;
    if n == 0 {
      FirstIsItsMix(definition, world, calls, inv);
      plan := calls[0].plan;
    } else {
      var before, r := LastInvocation(definition, world, calls);
      FewerVersions(calls, definition, inv);
      var earlier := ChainIsSomeRun(definition, world, calls[..n], inv);
      plan := GrownMix(earlier, definition, world, calls, before, inv);
      LastOfMix(plan, definition, world, before, calls[n], r, inv);
    }
  }

  lemma LastOfMix<D(!new), W(!new)>(plan: seq<StateFunc<D, W>>, definition: D, start: W, runs: seq<Invocation<W>>,
                                    call: Call<D, W>, r: Invocation<W>, inv: State<D, W> -> bool)
    requires ChainAt(plan, definition, start, runs, inv)
    requires call.flags.resume && !call.flags.dryRun && call.flags.workDir != "" && r.ok
    requires var last := runs[|runs| - 1];
             r == Invoke(call.plan, definition, call.flags, call.writing, last.metadata, last.world)
    requires SamePlans(plan, plan, definition, inv) && Survives(inv, definition, start)
    requires Names(plan) == Names(call.plan)
    requires var m := runs[|runs| - 1].metadata.value.stepsTaken; |plan| == |call.plan| && plan[m..] == call.plan[m..]
    ensures ChainAt(plan, definition, start, runs + [r], inv)
  {
    var last := runs[|runs| - 1];
    InvokeOfRest(call.plan, plan, definition, call.flags, call.writing, last.metadata.value, last.world);
    ChainStep(plan, definition, start, runs, call.(plan := plan), r, inv);
  }

  lemma MixGrows<D, W>(earlier: seq<StateFunc<D, W>>, calls: seq<Call<D, W>>, m: nat)
    requires |calls| > 1 && MixOf(earlier, calls[..|calls| - 1])
    requires m <= |earlier| == |calls[|calls| - 1].plan|
    ensures MixOf(earlier[..m] + calls[|calls| - 1].plan[m..], calls)
  {
    var n := |calls| - 1;
    var plan := earlier[..m] + calls[n].plan[m..];
    forall k | 0 <= k < |plan|
      ensures exists i :: 0 <= i < |calls| && k < |calls[i].plan| && plan[k] == calls[i].plan[k]
    {
      if k < m {
        var i :| 0 <= i < n && k < |calls[..n][i].plan| && earlier[k] == calls[..n][i].plan[k];
        assert plan[k] == calls[i].plan[k];
      } else {
        assert plan[k] == calls[n].plan[k];
      }
    }
  }

  /** The states behind the last invocation as they were run, and those ahead as that invocation has them. */
  lemma GrownMix<D(!new), W(!new)>(earlier: seq<StateFunc<D, W>>, definition: D, world: W, calls: seq<Call<D, W>>,
                                   before: seq<Invocation<W>>, inv: State<D, W> -> bool)
    returns (plan: seq<StateFunc<D, W>>)
    requires |calls| > 1 && ChainOfVersions(calls, definition, inv)
    requires MixOf(earlier, calls[..|calls| - 1]) && ChainAt(earlier, definition, world, before, inv)
    ensures MixOf(plan, calls) && SamePlans(plan, plan, definition, inv)
    ensures Names(plan) == Names(calls[|calls| - 1].plan) && ChainAt(plan, definition, world, before, inv)
    ensures var m := before[|before| - 1].metadata.value.stepsTaken;
            m <= |plan| == |calls[|calls| - 1].plan| && plan[m..] == calls[|calls| - 1].plan[m..]
  {
    var n, m := |calls| - 1, before[|before| - 1].metadata.value.stepsTaken;
    MixIsSafe(earlier, calls[..n], definition, inv);
    assert |calls[n].plan| == |Names(calls[n].plan)| == |Names(calls[0].plan)| == |earlier|;
    plan := earlier[..m] + calls[n].plan[m..];
    MixGrows(earlier, calls, m);
    MixIsSafe(plan, calls, definition, inv);
    assert plan[..m] == earlier[..m] && plan[m..] == calls[n].plan[m..];
    ReachedByPrefix(earlier, plan, definition, world, before, inv);
  }
}
