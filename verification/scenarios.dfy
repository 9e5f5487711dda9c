/**
 Concrete compilations, each worked through round by round, including the
 case where a second root module arrives after the generated root module was
 already written.
 */
module Scenarios {
  import opened Options
  import opened Elements
  import opened ModuleIndexScan
  import opened Processor
  import opened Session

  const libraryX := Declaration("lib.X", false, true)
  const libraryY := Declaration("lib.Y", false, true)
  const appZ := Declaration("app.Z", true, false)
  const appZ2 := Declaration("app.Z2", true, false)

  /** The compiler package is on the classpath and holds no indexer. */
  const plain := Env(Some([PackageElement(None)]))

  /** A run of one round. */
  lemma RunOne(env: Env, s: RoundState, b: seq<Declaration>)
    ensures Run(env, s, [b]) == Trace(Step(env, s, b).state, [Step(env, s, b).outcome])
  {
  }

  /** A run of two rounds whose first call returns. */
  lemma RunTwo(env: Env, s: RoundState, b1: seq<Declaration>, b2: seq<Declaration>)
    requires Step(env, s, b1).outcome.Returned?
    ensures var r1 := Step(env, s, b1);
            var r2 := Step(env, r1.state, b2);
            Run(env, s, [b1, b2]) == Trace(r2.state, [r1.outcome, r2.outcome])
  {
    assert [b1, b2][1..] == [b2];
    RunOne(env, Step(env, s, b1).state, b2);
  }

  /** The package scan of `plain` after one indexer written in round 1. */
  lemma ScanAfterIndexer(modules: seq<Name>)
    ensures CompilerPackage(plain, [Indexer(1, modules)], 2)
            == Some([PackageElement(None), PackageElement(Some(modules))])
  {
    var written := [Indexer(1, modules)];
    assert written[..0] == [];
    assert VisibleIndexers(written, 2) == [PackageElement(Some(modules))];
    assert plain.classpathPackage.value + [PackageElement(Some(modules))]
           == [PackageElement(None), PackageElement(Some(modules))];
  }

  /** The names the scan finds in `plain` plus one indexer. */
  lemma NamesAfterIndexer(modules: seq<Name>)
    ensures IndexedNames([PackageElement(None), PackageElement(Some(modules))]) == set n | n in modules
  {
  }

  /** Round 1 with children X and Y: the indexer [X, Y] is written. */
  lemma ChildrenRound()
    ensures Step(plain, Init(), [libraryX, libraryY])
            == StepResult(RoundState([], {}, false, 1, [Indexer(1, ["lib.X", "lib.Y"])]), Returned(true))
  {
    assert [libraryX, libraryY][1..] == [libraryY];
    assert Classify([libraryX, libraryY]) == Partition([], ["lib.X", "lib.Y"], None);
  }

  /** Round 2 with root Z after `ChildrenRound`: root module Z listing {X, Y} is written. */
  lemma RootAfterChildrenRound()
    ensures var s := RoundState([], {}, false, 1, [Indexer(1, ["lib.X", "lib.Y"])]);
            Step(plain, s, [appZ])
            == StepResult(RoundState(["app.Z"], {"lib.X", "lib.Y"}, true, 2,
                                     [Indexer(1, ["lib.X", "lib.Y"]), GeneratedRoot(2, "app.Z", {"lib.X", "lib.Y"})]),
                          Returned(true))
  {
    ScanAfterIndexer(["lib.X", "lib.Y"]);
    NamesAfterIndexer(["lib.X", "lib.Y"]);
    assert Classify([appZ]) == Partition(["app.Z"], [], None);
    assert (set n | n in ["lib.X", "lib.Y"]) == {"lib.X", "lib.Y"};
  }

  /** Children in round 1, the root in round 2: one indexer, then the root module listing both children. */
  lemma ChildrenThenRoot()
    ensures var t := Run(plain, Init(), [[libraryX, libraryY], [appZ]]);
            && t.outcomes == [Returned(true), Returned(true)]
            && t.state.written == [Indexer(1, ["lib.X", "lib.Y"]), GeneratedRoot(2, "app.Z", {"lib.X", "lib.Y"})]
  {
    ChildrenRound();
    RootAfterChildrenRound();
    RunTwo(plain, Init(), [libraryX, libraryY], [appZ]);
  }

  /** Round 1 with child X and root Z: only the indexer [X] is written, and Z is pending. */
  lemma ChildAndRootRound()
    ensures Step(plain, Init(), [libraryX, appZ])
            == StepResult(RoundState(["app.Z"], {}, false, 1, [Indexer(1, ["lib.X"])]), Returned(true))
  {
    assert [libraryX, appZ][1..] == [appZ];
    assert Classify([libraryX, appZ]) == Partition(["app.Z"], ["lib.X"], None);
  }

  /** The empty round after `ChildAndRootRound` writes root module Z listing {X}. */
  lemma DeferredRootRound()
    ensures var s := RoundState(["app.Z"], {}, false, 1, [Indexer(1, ["lib.X"])]);
            Step(plain, s, [])
            == StepResult(RoundState(["app.Z"], {"lib.X"}, true, 2,
                                     [Indexer(1, ["lib.X"]), GeneratedRoot(2, "app.Z", {"lib.X"})]),
                          Returned(true))
  {
    ScanAfterIndexer(["lib.X"]);
    NamesAfterIndexer(["lib.X"]);
    assert (set n | n in ["lib.X"]) == {"lib.X"};
  }

  /** A child and the root in the same round: the root waits for the next, empty, round. */
  lemma RootDeferredPastIndexer()
    ensures var t := Run(plain, Init(), [[libraryX, appZ], []]);
            && t.outcomes == [Returned(true), Returned(true)]
            && t.state.written == [Indexer(1, ["lib.X"]), GeneratedRoot(2, "app.Z", {"lib.X"})]
  {
    ChildAndRootRound();
    DeferredRootRound();
    RunTwo(plain, Init(), [libraryX, appZ], []);
  }

  /** Two roots in one round: the round fails naming both, and nothing is written. */
  lemma TwoRootsInOneRound()
    ensures var t := Run(plain, Init(), [[appZ, appZ2], []]);
            && t.outcomes == [Threw(MultipleRootModules(["app.Z", "app.Z2"]))]
            && t.state.written == []
  {
    assert [appZ, appZ2][1..] == [appZ2];
    assert Classify([appZ, appZ2]) == Partition(["app.Z", "app.Z2"], [], None);
    var bs := [[appZ, appZ2], []];
    assert bs[0] == [appZ, appZ2];
    assert Init().rootModules + ["app.Z", "app.Z2"] == ["app.Z", "app.Z2"];
  }

  /**
   Two roots in different rounds: the first round already writes the generated
   root module, and only the second round fails.
   */
  lemma SecondRootAfterGeneratedRoot()
    ensures var t := Run(plain, Init(), [[appZ], [appZ2]]);
            && t.outcomes == [Returned(true), Threw(MultipleRootModules(["app.Z", "app.Z2"]))]
            && t.state.written == [GeneratedRoot(1, "app.Z", {})]
  {
    assert Classify([appZ]) == Partition(["app.Z"], [], None);
    assert [PackageElement(None)][..0] == [];
    assert IndexedNames([PackageElement(None)]) == {};
    assert VisibleIndexers([], 1) == [];
    assert plain.classpathPackage.value + [] == [PackageElement(None)];
    assert CompilerPackage(plain, [], 1) == Some([PackageElement(None)]);
    var r1 := Step(plain, Init(), [appZ]);
    assert r1.state.classNames == {};
    assert r1 == StepResult(RoundState(["app.Z"], {}, true, 1, [GeneratedRoot(1, "app.Z", {})]), Returned(true));
    RunTwo(plain, Init(), [appZ], [appZ2]);
    assert Classify([appZ2]) == Partition(["app.Z2"], [], None);
    assert ["app.Z"] + ["app.Z2"] == ["app.Z", "app.Z2"];
  }

  /**
   A root deferred past an indexer, then a second root: the second round fails,
   and no root module is ever written.
   */
  lemma SecondRootWhileDeferred()
    ensures var t := Run(plain, Init(), [[libraryX, appZ], [appZ2]]);
            && t.outcomes == [Returned(true), Threw(MultipleRootModules(["app.Z", "app.Z2"]))]
            && t.state.written == [Indexer(1, ["lib.X"])]
  {
    ChildAndRootRound();
    RunTwo(plain, Init(), [libraryX, appZ], [appZ2]);
    assert Classify([appZ2]) == Partition(["app.Z2"], [], None);
    assert ["app.Z"] + ["app.Z2"] == ["app.Z", "app.Z2"];
  }

  /** A type assignable to both base types is a root, never a child. */
  lemma BothKindsIsRoot()
    ensures Classify([Declaration("app.W", true, true)]) == Partition(["app.W"], [], None)
  {
  }

  /** A library's indexer on the classpath is listed by the root module of the application. */
  lemma ClasspathIndexerReachesRoot()
    ensures var env := Env(Some([PackageElement(Some(["lib.L"]))]));
            var t := Run(env, Init(), [[appZ]]);
            t.state.written == [GeneratedRoot(1, "app.Z", {"lib.L"})]
  {
    var env := Env(Some([PackageElement(Some(["lib.L"]))]));
    var elements := [PackageElement(Some(["lib.L"]))];
    assert elements[..0] == [];
    assert IndexedNames(elements) == {"lib.L"};
    assert Classify([appZ]) == Partition(["app.Z"], [], None);
    RunOne(env, Init(), [appZ]);
  }

  /** Without the compiler package anywhere, the scan of the root round fails. */
  lemma MissingPackageFails()
    ensures var t := Run(Env(None), Init(), [[appZ]]);
            t.outcomes == [Threw(MissingCompilerPackage)] && t.state.written == []
  {
  }

  /** An annotated type that is neither kind fails the round, naming it. */
  lemma NeitherKindFails()
    ensures var t := Run(plain, Init(), [[libraryX, Declaration("app.Bad", false, false)]]);
            t.outcomes == [Threw(NotAGlideModule("app.Bad"))] && t.state.written == []
  {
    var b := [libraryX, Declaration("app.Bad", false, false)];
    assert b[1..] == [Declaration("app.Bad", false, false)];
    assert Classify(b) == Partition([], ["lib.X"], Some("app.Bad"));
    RunOne(plain, Init(), b);
  }
}
