/**
 One call of `ModuleAnnotationProcessor.process`: the processor's fields as an
 immutable state, the classes it writes as a log of artifacts, and the round
 step as a pure function from the old state and the round's declarations to
 the new state and the way the call ended.
 */
module Processor {
  import opened Options
  import opened Elements
  import opened ModuleIndexScan

  /**
   A class handed to the Filer. An `Indexer` is a GlideIndexer class in the
   compiler package whose `@ModuleIndex` lists one round's child modules; a
   `GeneratedRoot` is the GeneratedRootGlideModule, built from the root
   module's name and the set of child module names. `round` is the round in
   which the class was written.
   */
  datatype Artifact =
    | Indexer(round: nat, modules: seq<Name>)
    | GeneratedRoot(round: nat, rootModule: Name, childModules: set<Name>)

  /** The exceptions `process` throws. */
  datatype ProcessError =
    | NotAGlideModule(element: Name)          // neither a RootGlideModule nor a ChildGlideModule
    | MultipleRootModules(found: seq<Name>)   // more than one RootGlideModule so far
    | ChildAfterRoot(children: seq<Name>)     // child modules after the root module was written
    | MissingCompilerPackage                  // the package scan finds no compiler package

  /** How one call of `process` ended: its boolean result, or an exception. */
  datatype Outcome = Returned(claimed: bool) | Threw(error: ProcessError)

  /**
   The processor's fields: `rootGlideModules`, `glideModuleClassNames`,
   `isGeneratedRootGlideModuleWritten` and `round`, plus the classes written
   so far.
   */
  datatype RoundState = RoundState(
    rootModules: seq<Name>,
    classNames: set<Name>,
    rootWritten: bool,
    round: nat,
    written: seq<Artifact>)

  /**
   What the compilation supplies besides the round's declarations: the
   elements of the compiler package already on the classpath (indexers
   compiled into libraries, and unannotated classes), or `None` when that
   package is not on the classpath at all.
   */
  datatype Env = Env(classpathPackage: Option<seq<PackageElement>>)

  datatype StepResult = StepResult(state: RoundState, outcome: Outcome)

  /**
   The processor as constructed: the list and the set start empty, the flag
   and the counter take Java's defaults, and no class has been written.
   */
  function Init(): (s: RoundState)
    ensures s.rootModules == [] && s.classNames == {}
    ensures !s.rootWritten && s.round == 0
    ensures s.written == []
  {
    RoundState([], {}, false, 0, [])
  }

  /** The names listed by the indexers in `written`, whatever round wrote them. */
  function Indexed(written: seq<Artifact>): set<Name>
    decreases |written|
  {
    if |written| == 0 then
      {}
    else
      var earlier := Indexed(written[..|written| - 1]);
      match written[|written| - 1]
      case Indexer(_, modules) => earlier + (set n | n in modules)
      case GeneratedRoot(_, _, _) => earlier
  }

  /** How many GeneratedRootGlideModule classes `written` holds. */
  function RootCount(written: seq<Artifact>): nat
    decreases |written|
  {
    if |written| == 0 then
      0
    else
      RootCount(written[..|written| - 1]) + (if written[|written| - 1].GeneratedRoot? then 1 else 0)
  }

  /** An indexer written before round `current`, so a scan in that round sees it. */
  predicate VisibleAt(a: Artifact, current: nat) {
    a.Indexer? && a.round < current
  }

  /**
   The indexers of `written` that a package scan in round `current` sees: a
   class written in some round is visible to the scan only from the next
   round on. The generated root module lives in another package.
   */
  function VisibleIndexers(written: seq<Artifact>, current: nat): (r: seq<PackageElement>)
    ensures forall e :: e in r <==>
              exists i :: 0 <= i < |written| && VisibleAt(written[i], current)
                          && e == PackageElement(Some(written[i].modules))
    ensures |r| == 0 <==> forall i :: 0 <= i < |written| ==> !VisibleAt(written[i], current)
    ensures |r| <= |written|
    decreases |written|
  {
    if |written| == 0 then
      []
    else
      var earlier := VisibleIndexers(written[..|written| - 1], current);
      match written[|written| - 1]
      case Indexer(r, modules) => if r < current then earlier + [PackageElement(Some(modules))] else earlier
      case GeneratedRoot(_, _, _) => earlier
  }

  /**
   The compiler package as the package scan of round `current` sees it, or
   `None` when the package does not exist (then the scan dereferences null).
   */
  function CompilerPackage(env: Env, written: seq<Artifact>, current: nat): (r: Option<seq<PackageElement>>)
    ensures r.Some? <==>
              env.classpathPackage.Some?
              || exists i :: 0 <= i < |written| && VisibleAt(written[i], current)
    ensures r.Some? ==> r.value == env.classpathPackage.GetOr([]) + VisibleIndexers(written, current)
  {
    var generated := VisibleIndexers(written, current);
    match env.classpathPackage
    case Some(elements) => Some(elements + generated)
    case None =>
      if |generated| == 0 then None
      else assert generated[0] in generated; Some(generated)
  }

  /** The child module names the library indexers on the classpath list. */
  function ClasspathNames(env: Env): set<Name> {
    IndexedNames(env.classpathPackage.GetOr([]))
  }

  /**
   One call of `process` with the round's `@GlideModule` declarations.
   The returned state is the processor's state after the call, also when the
   call threw: the round counter and the root list are updated before any
   check can fail.
   */
  function Step(env: Env, s: RoundState, batch: seq<Declaration>): (r: StepResult)
    // the round counter goes up by one whatever the outcome
    ensures r.state.round == s.round + 1
    // the root list only grows, by the roots the classification found
    ensures r.state.rootModules == s.rootModules + Classify(batch).roots
    // earlier classes are never touched; at most one class is written per call
    ensures s.written <= r.state.written && |r.state.written| <= |s.written| + 1
    // an exception writes nothing and changes neither the flag nor the name set
    ensures r.outcome.Threw? ==>
              r.state.written == s.written && r.state.rootWritten == s.rootWritten
              && r.state.classNames == s.classNames
    // a declaration that is neither root nor child fails the round
    ensures (exists i :: 0 <= i < |batch| && !IsGlideModule(batch[i])) ==>
              r.outcome.Threw? && r.outcome.error.NotAGlideModule?
    // more than one root so far fails the round, before anything is written
    ensures |r.state.rootModules| > 1 ==> r.outcome.Threw?
    // a round with children after the root was written fails
    ensures s.rootWritten && Classify(batch).children != [] ==> r.outcome.Threw?
    // a round with children that does not fail writes exactly one indexer for them
    ensures r.outcome.Returned? && Classify(batch).children != [] ==>
              && r.outcome.claimed
              && r.state.written == s.written + [Indexer(s.round + 1, Classify(batch).children)]
              && r.state.rootWritten == s.rootWritten
              && r.state.classNames == s.classNames
    // no children, and the root written already or never seen: nothing happens
    ensures r.outcome.Returned? && Classify(batch).children == []
            && (s.rootWritten || r.state.rootModules == []) ==>
              && !r.outcome.claimed
              && r.state.written == s.written
              && r.state.rootWritten == s.rootWritten
              && r.state.classNames == s.classNames
    // the flag is write-once
    ensures s.rootWritten ==> r.state.rootWritten && r.state.written == s.written
    // the root module is written only in a round without children, from the first root,
    // with the names of every indexer the package scan sees
    ensures r.state.rootWritten && !s.rootWritten ==>
              && r.outcome == Returned(true)
              && Classify(batch).children == []
              && |r.state.rootModules| == 1
              && CompilerPackage(env, s.written, s.round + 1).Some?
              && r.state.classNames
                 == s.classNames + IndexedNames(CompilerPackage(env, s.written, s.round + 1).value)
              && r.state.written
                 == s.written + [GeneratedRoot(s.round + 1, r.state.rootModules[0], r.state.classNames)]
    // a pending root in a round without children is written unless the package is missing
    ensures !s.rootWritten && Classify(batch).children == [] && |r.state.rootModules| == 1
            && Classify(batch).rejected.None? ==>
              r.state.rootWritten || r.outcome == Threw(MissingCompilerPackage)
    // exactly these calls throw; every other call returns
    ensures r.outcome.Threw? <==>
              || Classify(batch).rejected.Some?
              || |r.state.rootModules| > 1
              || (s.rootWritten && Classify(batch).children != [])
              || (!s.rootWritten && Classify(batch).children == [] && r.state.rootModules != []
                  && CompilerPackage(env, s.written, s.round + 1).None?)
    // the checks run in source order: classification, then the root count
    ensures Classify(batch).rejected.None? && |r.state.rootModules| > 1 ==>
              r.outcome == Threw(MultipleRootModules(r.state.rootModules))
    ensures Classify(batch).rejected.None? && |r.state.rootModules| <= 1
            && s.rootWritten && Classify(batch).children != [] ==>
              r.outcome == Threw(ChildAfterRoot(Classify(batch).children))
    // each exception carries what the source puts in its message
    ensures r.outcome.Threw? && r.outcome.error.NotAGlideModule? ==>
              Classify(batch).rejected == Some(r.outcome.error.element)
    ensures r.outcome.Threw? && r.outcome.error.MultipleRootModules? ==>
              r.outcome.error.found == r.state.rootModules
    ensures r.outcome.Threw? && r.outcome.error.ChildAfterRoot? ==>
              r.outcome.error.children == Classify(batch).children
  {
    var round := s.round + 1;
    var p := Classify(batch);
    var roots := s.rootModules + p.roots;
    var s1 := s.(round := round, rootModules := roots);
    if p.rejected.Some? then
      StepResult(s1, Threw(NotAGlideModule(p.rejected.value)))
    else if |roots| > 1 then
      StepResult(s1, Threw(MultipleRootModules(roots)))
    else if p.children != [] then
      if s.rootWritten then
        StepResult(s1, Threw(ChildAfterRoot(p.children)))
      else
        StepResult(s1.(written := s.written + [Indexer(round, p.children)]), Returned(true))
    else if s.rootWritten || roots == [] then
      StepResult(s1, Returned(false))
    else
      match CompilerPackage(env, s.written, round)
      case None =>
        StepResult(s1, Threw(MissingCompilerPackage))
      case Some(elements) =>
        var names := s.classNames + IndexedNames(elements);
        var s2 := s1.(classNames := names, rootWritten := true,
                      written := s.written + [GeneratedRoot(round, roots[0], names)]);
        StepResult(s2, Returned(true))
  }
}
