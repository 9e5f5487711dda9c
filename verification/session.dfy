/**
 A compilation session: the host calls `process` once per round, and stops
 calling it once a call has thrown (the compilation is aborted). The lemmas
 here are about every sequence of rounds.
 */
module Session {
  import opened Options
  import opened Elements
  import opened ModuleIndexScan
  import opened Processor

  /** The processor's state after a run of rounds, and how each call ended. */
  datatype Trace = Trace(state: RoundState, outcomes: seq<Outcome>)

  /** Calls `process` on each batch in turn, until the first call that throws. */
  function Run(env: Env, s: RoundState, batches: seq<seq<Declaration>>): (t: Trace)
    ensures |t.outcomes| <= |batches|
    // one call per round, and the counter goes up once per call
    ensures t.state.round == s.round + |t.outcomes|
    // only the last call can have thrown; the run stops early only after a throw
    ensures forall i :: 0 <= i < |t.outcomes| - 1 ==> t.outcomes[i].Returned?
    ensures |t.outcomes| < |batches| ==> |t.outcomes| > 0 && t.outcomes[|t.outcomes| - 1].Threw?
    // the root list is the concatenation of every round's roots
    ensures t.state.rootModules == s.rootModules + RootsOf(batches[..|t.outcomes|])
    // the log only grows
    ensures s.written <= t.state.written
    decreases |batches|
  {
    if |batches| == 0 then
      Trace(s, [])
    else
      var r := Step(env, s, batches[0]);
      if r.outcome.Threw? then
        RootsAfterLastStep(s.rootModules, r.state.rootModules, batches);
        Trace(r.state, [r.outcome])
      else
        var t := Run(env, r.state, batches[1..]);
        RootsAfterStep(s.rootModules, r.state.rootModules, t.state.rootModules, batches, |t.outcomes|);
        OutcomesCons(r.outcome, t.outcomes, |batches| - 1);
        Trace(t.state, [r.outcome] + t.outcomes)
  }

  /**
   Putting a call that returned in front of the outcomes of a run over `n`
   rounds gives the outcomes of a run over `n + 1` rounds.
   */
  lemma OutcomesCons(o: Outcome, outcomes: seq<Outcome>, n: nat)
    requires o.Returned? && |outcomes| <= n
    requires forall i :: 0 <= i < |outcomes| - 1 ==> outcomes[i].Returned?
    requires |outcomes| < n ==> |outcomes| > 0 && outcomes[|outcomes| - 1].Threw?
    ensures var all := [o] + outcomes;
            && (forall i :: 0 <= i < |all| - 1 ==> all[i].Returned?)
            && (|all| < n + 1 ==> |all| > 0 && all[|all| - 1].Threw?)
  {
  }

  /** A root list that grew by the first round's roots holds the roots of that one round. */
  lemma RootsAfterLastStep(before: seq<Name>, after: seq<Name>, batches: seq<seq<Declaration>>)
    requires |batches| > 0 && after == before + Classify(batches[0]).roots
    ensures after == before + RootsOf(batches[..1])
  {
    assert batches[..1][1..] == [];
  }

  /**
   A root list that grew by the first round's roots and then by those of the
   next `k` rounds holds the roots of the first `k + 1` rounds.
   */
  lemma RootsAfterStep(before: seq<Name>, mid: seq<Name>, after: seq<Name>,
                       batches: seq<seq<Declaration>>, k: nat)
    requires k < |batches|
    requires mid == before + Classify(batches[0]).roots
    requires after == mid + RootsOf(batches[1..][..k])
    ensures after == before + RootsOf(batches[..k + 1])
  {
    RootsOfPrefix(batches, k);
  }

  /** The roots of the first `k + 1` rounds: the first round's, then those of the next `k`. */
  lemma RootsOfPrefix(batches: seq<seq<Declaration>>, k: nat)
    requires k < |batches|
    ensures RootsOf(batches[..k + 1]) == Classify(batches[0]).roots + RootsOf(batches[1..][..k])
  {
    assert batches[..k + 1][1..] == batches[1..][..k];
  }

  /** The roots of a sequence of rounds, in round then declaration order. */
  function RootsOf(batches: seq<seq<Declaration>>): seq<Name>
    decreases |batches|
  {
    if |batches| == 0 then [] else Classify(batches[0]).roots + RootsOf(batches[1..])
  }

  /** The child module names of a sequence of rounds. */
  function ChildrenOfAll(batches: seq<seq<Declaration>>): set<Name>
    decreases |batches|
  {
    if |batches| == 0 then {} else ChildrenOf(batches[0]) + ChildrenOfAll(batches[1..])
  }

  /** How many calls of the trace returned normally. */
  function Completed(t: Trace): nat {
    if |t.outcomes| > 0 && t.outcomes[|t.outcomes| - 1].Threw? then |t.outcomes| - 1 else |t.outcomes|
  }

  /**
   The invariant that holds between calls, also after a call that threw:
   - every class was written in a past round;
   - the generated root module was written once if the flag is set, else never;
   - the name set is empty until then;
   - once written, the generated root module is the last class written, is named
     after the first root module, and lists the classpath's indexed names and
     every name of every indexer written in the session.
   */
  predicate Wellformed(env: Env, s: RoundState) {
    && (forall i :: 0 <= i < |s.written| ==> s.written[i].round <= s.round)
    && RootCount(s.written) == (if s.rootWritten then 1 else 0)
    && (!s.rootWritten ==> s.classNames == {})
    && (s.rootWritten ==>
          && |s.rootModules| > 0
          && |s.written| > 0
          && s.written[|s.written| - 1] == GeneratedRoot(s.written[|s.written| - 1].round, s.rootModules[0], s.classNames)
          && s.classNames == ClasspathNames(env) + Indexed(s.written))
  }

  lemma InitWellformed(env: Env)
    ensures Wellformed(env, Init())
  {
  }

  /** Appending one class to the log extends the indexed names and the root count by that class. */
  lemma AppendArtifact(written: seq<Artifact>, a: Artifact)
    ensures Indexed(written + [a]) == Indexed(written) + (if a.Indexer? then (set n | n in a.modules) else {})
    ensures RootCount(written + [a]) == RootCount(written) + (if a.GeneratedRoot? then 1 else 0)
  {
  }

  /** A scan in a round later than every indexer's round sees every indexer. */
  lemma {:induction false} VisibleIndexersNames(written: seq<Artifact>, current: nat)
    requires forall i :: 0 <= i < |written| ==> written[i].round < current
    ensures IndexedNames(VisibleIndexers(written, current)) == Indexed(written)
    ensures (exists i :: 0 <= i < |written| && written[i].Indexer?) ==> |VisibleIndexers(written, current)| > 0
    decreases |written|
  {
    if |written| > 0 {
      var w' := written[..|written| - 1];
      VisibleIndexersNames(w', current);
      match written[|written| - 1]
      case Indexer(r, modules) =>
        var e := PackageElement(Some(modules));
        IndexedNamesAppend(VisibleIndexers(w', current), [e]);
      case GeneratedRoot(_, _, _) =>
    }
  }

  /** The scan of the round that writes the root module finds the classpath's names and every indexer's. */
  lemma PackageScanNames(env: Env, written: seq<Artifact>, current: nat)
    requires forall i :: 0 <= i < |written| ==> written[i].round < current
    requires CompilerPackage(env, written, current).Some?
    ensures IndexedNames(CompilerPackage(env, written, current).value) == ClasspathNames(env) + Indexed(written)
  {
    VisibleIndexersNames(written, current);
    IndexedNamesAppend(env.classpathPackage.GetOr([]), VisibleIndexers(written, current));
  }

  /** A call that writes nothing and leaves the flag and the name set alone keeps the invariant. */
  lemma KeepsWellformedQuiet(env: Env, s: RoundState, s': RoundState)
    requires Wellformed(env, s)
    requires s'.round == s.round + 1 && s.rootModules <= s'.rootModules
    requires s'.written == s.written && s'.rootWritten == s.rootWritten && s'.classNames == s.classNames
    ensures Wellformed(env, s')
  {
  }

  /** A call that writes one indexer before the root module keeps the invariant. */
  lemma KeepsWellformedIndexer(env: Env, s: RoundState, s': RoundState, children: seq<Name>)
    requires Wellformed(env, s) && !s.rootWritten
    requires s'.round == s.round + 1
    requires s'.written == s.written + [Indexer(s.round + 1, children)]
    requires s'.rootWritten == s.rootWritten && s'.classNames == s.classNames
    ensures Wellformed(env, s')
  {
    AppendArtifact(s.written, Indexer(s.round + 1, children));
  }

  /** A call that writes the root module from the scanned names keeps the invariant. */
  lemma KeepsWellformedRoot(env: Env, s: RoundState, s': RoundState)
    requires Wellformed(env, s) && !s.rootWritten
    requires s'.round == s.round + 1 && s'.rootWritten && |s'.rootModules| > 0
    requires CompilerPackage(env, s.written, s.round + 1).Some?
    requires s'.classNames == s.classNames + IndexedNames(CompilerPackage(env, s.written, s.round + 1).value)
    requires s'.written == s.written + [GeneratedRoot(s.round + 1, s'.rootModules[0], s'.classNames)]
    ensures Wellformed(env, s')
  {
    AppendArtifact(s.written, GeneratedRoot(s.round + 1, s'.rootModules[0], s'.classNames));
    PackageScanNames(env, s.written, s.round + 1);
  }

  /** One call of `process` keeps the invariant, whatever its outcome. */
  lemma StepKeepsWellformed(env: Env, s: RoundState, batch: seq<Declaration>)
    requires Wellformed(env, s)
    ensures Wellformed(env, Step(env, s, batch).state)
  {
    var r := Step(env, s, batch);
    var children := Classify(batch).children;
    if r.outcome.Threw? {
      KeepsWellformedQuiet(env, s, r.state);
    } else if children != [] {
      KeepsWellformedIndexer(env, s, r.state, children);
    } else if s.rootWritten || r.state.rootModules == [] {
      KeepsWellformedQuiet(env, s, r.state);
    } else {
      KeepsWellformedRoot(env, s, r.state);
    }
  }

  /** Every call of a run keeps the invariant. */
  lemma {:induction false} RunKeepsWellformed(env: Env, s: RoundState, batches: seq<seq<Declaration>>)
    requires Wellformed(env, s)
    ensures Wellformed(env, Run(env, s, batches).state)
    decreases |batches|
  {
    if |batches| > 0 {
      StepKeepsWellformed(env, s, batches[0]);
      var r := Step(env, s, batches[0]);
      if r.outcome.Returned? {
        RunKeepsWellformed(env, r.state, batches[1..]);
      }
    }
  }

  /** A call that returns adds exactly its round's children to the indexed names; one that throws adds none. */
  lemma StepIndexes(env: Env, s: RoundState, batch: seq<Declaration>)
    ensures Indexed(Step(env, s, batch).state.written)
            == Indexed(s.written) + (if Step(env, s, batch).outcome.Returned? then ChildrenOf(batch) else {})
  {
  }

  /** The children of the first `k + 1` rounds: the first round's, then those of the next `k`. */
  lemma ChildrenOfPrefix(batches: seq<seq<Declaration>>, k: nat)
    requires k < |batches|
    ensures ChildrenOfAll(batches[..k + 1]) == ChildrenOf(batches[0]) + ChildrenOfAll(batches[1..][..k])
  {
    assert batches[..k + 1][1..] == batches[1..][..k];
  }

  /** A run whose first call returns is that call followed by the run of the remaining rounds. */
  lemma RunReturned(env: Env, s: RoundState, batches: seq<seq<Declaration>>)
    requires |batches| > 0 && Step(env, s, batches[0]).outcome.Returned?
    ensures var r := Step(env, s, batches[0]);
            var t' := Run(env, r.state, batches[1..]);
            Run(env, s, batches) == Trace(t'.state, [r.outcome] + t'.outcomes)
  {
  }

  /** Putting a call that returned in front of a trace adds one completed call. */
  lemma CompletedCons(o: Outcome, t: Trace)
    requires o.Returned?
    ensures Completed(Trace(t.state, [o] + t.outcomes)) == 1 + Completed(t)
  {
  }

  /** The inductive step of `RunIndexes`: trace `t` is a returned call in front of trace `t'`. */
  lemma RunIndexesCons(before: seq<Artifact>, batches: seq<seq<Declaration>>, next: RoundState, o: Outcome, t': Trace, t: Trace)
    requires |t'.outcomes| < |batches| && o.Returned?
    requires t == Trace(t'.state, [o] + t'.outcomes)
    requires Indexed(next.written) == Indexed(before) + ChildrenOf(batches[0])
    requires Indexed(t'.state.written) == Indexed(next.written) + ChildrenOfAll(batches[1..][..Completed(t')])
    ensures Indexed(t.state.written) == Indexed(before) + ChildrenOfAll(batches[..Completed(t)])
  {
    CompletedCons(o, t');
    ChildrenOfPrefix(batches, Completed(t'));
  }

  /** The indexers of a run list exactly the children of the rounds that returned. */
  lemma {:induction false} RunIndexes(env: Env, s: RoundState, batches: seq<seq<Declaration>>)
    ensures Indexed(Run(env, s, batches).state.written)
            == Indexed(s.written) + ChildrenOfAll(batches[..Completed(Run(env, s, batches))])
    decreases |batches|
  {
    if |batches| > 0 {
      StepIndexes(env, s, batches[0]);
      var r := Step(env, s, batches[0]);
      if r.outcome.Returned? {
        RunIndexes(env, r.state, batches[1..]);
        RunReturned(env, s, batches);
        RunIndexesCons(s.written, batches, r.state, r.outcome,
                       Run(env, r.state, batches[1..]), Run(env, s, batches));
      }
    }
  }

  /**
   The central promise of the processor: over any sequence of rounds from a
   fresh processor, the generated root module is written at most once; when it
   is, it is the last class written, it is named after the first root module
   found, and its child module names are exactly the classpath indexers'
   names together with every child module of every round that returned.
   */
  lemma GeneratedRootListsEveryChild(env: Env, batches: seq<seq<Declaration>>)
    ensures var t := Run(env, Init(), batches);
            && RootCount(t.state.written) <= 1
            && (RootCount(t.state.written) == 1 <==> t.state.rootWritten)
            && (t.state.rootWritten ==>
                  var g := t.state.written[|t.state.written| - 1];
                  && g.GeneratedRoot?
                  && RootsOf(batches[..|t.outcomes|]) != []
                  && g.rootModule == RootsOf(batches[..|t.outcomes|])[0]
                  && g.childModules == ClasspathNames(env) + ChildrenOfAll(batches[..Completed(t)]))
  {
    InitWellformed(env);
    RunKeepsWellformed(env, Init(), batches);
    RunIndexes(env, Init(), batches);
  }

  /** Every child of a round that returned is in the generated root module's name set. */
  lemma EarlierChildrenReachRoot(env: Env, batches: seq<seq<Declaration>>, i: nat, n: Name)
    requires var t := Run(env, Init(), batches);
             t.state.rootWritten && i < Completed(t) && n in ChildrenOf(batches[i])
    ensures var t := Run(env, Init(), batches);
            && |t.state.written| > 0
            && t.state.written[|t.state.written| - 1].GeneratedRoot?
            && n in t.state.written[|t.state.written| - 1].childModules
  {
    var t := Run(env, Init(), batches);
    GeneratedRootListsEveryChild(env, batches);
    ChildrenOfAllHas(batches[..Completed(t)], i, n);
  }

  /** A child of any one round is among the children of all the rounds. */
  lemma {:induction false} ChildrenOfAllHas(batches: seq<seq<Declaration>>, i: nat, n: Name)
    requires i < |batches| && n in ChildrenOf(batches[i])
    ensures n in ChildrenOfAll(batches)
    decreases i
  {
    if i > 0 {
      ChildrenOfAllHas(batches[1..], i - 1, n);
    }
  }

  /** A round that declares no root module yields no roots. */
  lemma {:induction false} NoRootClassified(batch: seq<Declaration>)
    requires forall j :: 0 <= j < |batch| ==> !batch[j].isRootModule
    ensures Classify(batch).roots == []
    decreases |batch|
  {
    if |batch| > 0 {
      NoRootClassified(batch[1..]);
    }
  }

  /** Rounds that declare no root module contribute no roots. */
  lemma {:induction false} NoRootDeclared(batches: seq<seq<Declaration>>)
    requires forall i, j :: 0 <= i < |batches| && 0 <= j < |batches[i]| ==> !batches[i][j].isRootModule
    ensures RootsOf(batches) == []
    decreases |batches|
  {
    if |batches| > 0 {
      NoRootClassified(batches[0]);
      NoRootDeclared(batches[1..]);
    }
  }

  /** Without any root module declared, the generated root module is never written. */
  lemma NoRootNoGeneratedRoot(env: Env, batches: seq<seq<Declaration>>)
    requires forall i, j :: 0 <= i < |batches| && 0 <= j < |batches[i]| ==> !batches[i][j].isRootModule
    ensures var t := Run(env, Init(), batches);
            !t.state.rootWritten && RootCount(t.state.written) == 0
  {
    var t := Run(env, Init(), batches);
    NoRootDeclared(batches[..|t.outcomes|]);
    InitWellformed(env);
    RunKeepsWellformed(env, Init(), batches);
  }

  /** Once the root module is written, later rounds write nothing and never return true. */
  lemma {:induction false} NothingAfterRoot(env: Env, s: RoundState, batches: seq<seq<Declaration>>)
    requires s.rootWritten
    ensures var t := Run(env, s, batches);
            && t.state.rootWritten
            && t.state.written == s.written
            && forall i :: 0 <= i < |t.outcomes| ==> t.outcomes[i] != Returned(true)
    decreases |batches|
  {
    if |batches| > 0 {
      var r := Step(env, s, batches[0]);
      if r.outcome.Returned? {
        NothingAfterRoot(env, r.state, batches[1..]);
      }
    }
  }

  /**
   The host always ends with a round that brings no new declarations. In that
   round a pending, unique root module is written, provided the compiler package
   can be found: on the classpath or through an indexer of this session.
   */
  lemma FinalRoundWritesRoot(env: Env, s: RoundState)
    requires Wellformed(env, s)
    requires |s.rootModules| == 1
    requires env.classpathPackage.Some? || |s.written| > 0
    ensures var r := Step(env, s, []);
            r.state.rootWritten && r.outcome.Returned?
  {
  }
}
