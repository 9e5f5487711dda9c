# Glide module annotation processor — round state machine

This project models the core of Glide's `ModuleAnnotationProcessor`: the
javac annotation processor that finds every `@GlideModule` class of a
compilation and merges them into one generated `GeneratedRootGlideModule`.

Each compilation round, `process`:

1. classifies every `@GlideModule` type. A type assignable to
   `RootGlideModule` is a root (this test runs first). Otherwise, a type
   assignable to `ChildGlideModule` is a child. Anything else fails the
   round;
2. adds the roots to a list kept across rounds, and fails once that list
   holds more than one entry;
3. if the round found children, writes one `GlideIndexer` class for them in
   the compiler package and returns `true`. It fails instead if the root
   module was already generated;
4. otherwise, if a root is pending and not yet generated, collects the
   `glideModules` lists of every `@ModuleIndex` class visible in the
   compiler package. It then writes the generated root module once and sets
   a write-once flag.

The model is functional:

- `Processor.RoundState` holds the processor's fields (`rootGlideModules`,
  `glideModuleClassNames`, `isGeneratedRootGlideModuleWritten`, `round`) and
  the log of classes handed to the Filer.
- `Processor.Step` is one call of `process`. It returns the state after the
  call, also when the call throws, because the Java code bumps `round` and
  adds roots before any check can fail.
- `Session.Run` feeds a sequence of rounds and stops after the first
  exception.

The host's `isAssignable` answers are two booleans on each `Declaration`. A
class written in round *r* becomes visible to the package scan from round
*r + 1* on, as the comment in `process` explains. The classpath's part of the
compiler package (library indexers, unannotated classes, or no package at
all) is the `Env` parameter.

Files:

- `options.dfy`: `Option`.
- `elements.dfy`: declarations and the classification loop.
- `module_index.dfy`: `getGlideModuleClassNames`.
- `processor.dfy`: state, artifacts, `Step`.
- `session.dfy`: runs of rounds and the invariants over them.
- `scenarios.dfy`: concrete compilations worked through round by round.

## Model

| member | source | states |
|---|---|---|
| `Elements.Classify` | annotation/compiler/src/main/java/com/bumptech/glide/annotation/compiler/ModuleAnnotationProcessor.java:121-133 | No type is rejected iff every type is assignable to one of the two bases. A rejection names the first type that is neither. A type assignable to both is listed as a root. When nothing is rejected, every root and every child lands in its list, and the two lists together have one entry per declaration. Every listed name comes from a declaration of that kind. |
| `Elements.ClassifiedBeforeRejection` | annotation/compiler/src/main/java/com/bumptech/glide/annotation/compiler/ModuleAnnotationProcessor.java:121-133 | After a rejection, every root and every child listed comes from a declaration before the first rejected one, because the loop stops at the throw. |
| `Elements.ClassifiedChildren` | annotation/compiler/src/main/java/com/bumptech/glide/annotation/compiler/ModuleAnnotationProcessor.java:121-133 | When no type is rejected, the child list holds exactly the round's child modules (roots excluded), as a set. |
| `ModuleIndexScan.IndexedNames` | annotation/compiler/src/main/java/com/bumptech/glide/annotation/compiler/ModuleAnnotationProcessor.java:190-204 | A name is found iff some `@ModuleIndex` element of the package lists it. Unannotated elements contribute nothing. |
| `ModuleIndexScan.GlideModuleClassNames` | annotation/compiler/src/main/java/com/bumptech/glide/annotation/compiler/ModuleAnnotationProcessor.java:190-204 | The element-by-element loop computes exactly the union of the listed names. |
| `ModuleIndexScan.IndexedNamesAppend` | annotation/compiler/src/main/java/com/bumptech/glide/annotation/compiler/ModuleAnnotationProcessor.java:190-204 | Scanning classpath elements followed by generated elements finds the union of the two scans. |
| `Processor.Init` | annotation/compiler/src/main/java/com/bumptech/glide/annotation/compiler/ModuleAnnotationProcessor.java:73-78 | The fresh processor starts with an empty root list, an empty name set, the flag unset, round 0, and no class written. |
| `Processor.VisibleIndexers` | annotation/compiler/src/main/java/com/bumptech/glide/annotation/compiler/ModuleAnnotationProcessor.java:153-156 | The generated part of the compiler package in round `current` holds an element iff some indexer written in an earlier round carries exactly that element's names. It is empty iff no such indexer exists, and is never longer than the log. Classes of the current round and the generated root module are not in it. |
| `Processor.CompilerPackage` | annotation/compiler/src/main/java/com/bumptech/glide/annotation/compiler/ModuleAnnotationProcessor.java:173-174 | The package lookup finds a package iff the classpath has the compiler package or some indexer was written in an earlier round; otherwise it yields null (`None`). A found package holds the classpath's elements followed by the visible indexers. |
| `Processor.Step` | annotation/compiler/src/main/java/com/bumptech/glide/annotation/compiler/ModuleAnnotationProcessor.java:117-187 | The round counter goes up by one on every call. The root list grows by exactly the round's roots. Earlier classes are kept, and at most one class is written per call. A throw writes nothing and leaves the flag and the name set alone. A non-module type, or more than one root so far, fails the round. Children after the root was written fail the round. Otherwise a round with children writes exactly one indexer of those children, returns true and never writes the root. With no children and the root written or never seen, the call returns false and changes nothing. The flag is write-once. The root module is written only in a round without children, from the single root, with the names of every indexer the scan sees. A pending root in such a round is written unless the compiler package is missing. A call throws exactly when a type is neither kind, more than one root has been found, children arrive after the root was written, or a pending root finds no compiler package; every other call returns. Classification fails first, then the root count. Each exception is the one the source throws on that path and carries what it reports: the first non-module type, every root found so far, or the round's children. |
| `Session.Run` | annotation/compiler/src/main/java/com/bumptech/glide/annotation/compiler/ModuleAnnotationProcessor.java:117-141 | A session makes one call per round until the first exception. The counter equals the number of calls. Only the last call can have thrown. The root list is every processed round's roots in order. The log only grows. |
| `Session.InitWellformed` | annotation/compiler/src/main/java/com/bumptech/glide/annotation/compiler/ModuleAnnotationProcessor.java:73-78 | The freshly constructed processor satisfies the session invariant. |
| `Session.AppendArtifact` | annotation/compiler/src/main/java/com/bumptech/glide/annotation/compiler/ModuleAnnotationProcessor.java:207-213 | Writing one class adds that class's names to the indexed names, and adds one to the root count when the class is the root module. |
| `Session.VisibleIndexersNames` | annotation/compiler/src/main/java/com/bumptech/glide/annotation/compiler/ModuleAnnotationProcessor.java:153-156 | A scan in a round after every indexer was written sees exactly the indexers' names. If the log holds at least one indexer, the scan sees at least one element. |
| `Session.PackageScanNames` | annotation/compiler/src/main/java/com/bumptech/glide/annotation/compiler/ModuleAnnotationProcessor.java:173-175 | The scan in the root-writing round finds the classpath indexers' names plus every name of every indexer written in the session. |
| `Session.StepKeepsWellformed` | annotation/compiler/src/main/java/com/bumptech/glide/annotation/compiler/ModuleAnnotationProcessor.java:143-186 | Every call keeps the session invariant, whatever its outcome. The invariant: the root module is written once if flagged and never otherwise. The name set is empty until then. Afterwards the root module is the last class written, is named after the first root, and lists the classpath names and all indexed names. |
| `Session.RunKeepsWellformed` | annotation/compiler/src/main/java/com/bumptech/glide/annotation/compiler/ModuleAnnotationProcessor.java:160-166 | Every run of rounds keeps the session invariant. |
| `Session.StepIndexes` | annotation/compiler/src/main/java/com/bumptech/glide/annotation/compiler/ModuleAnnotationProcessor.java:143-158 | A call that returns adds exactly its round's child modules to the indexed names. A call that throws adds none. |
| `Session.RunIndexes` | annotation/compiler/src/main/java/com/bumptech/glide/annotation/compiler/ModuleAnnotationProcessor.java:143-158 | Over a session, the indexers list exactly the child modules of the rounds that returned. |
| `Session.GeneratedRootListsEveryChild` | annotation/compiler/src/main/java/com/bumptech/glide/annotation/compiler/ModuleAnnotationProcessor.java:143-186 | From a fresh processor, the root module is written at most once, and is written iff the flag is set. It is the last class written and is named after the first root found. Its child names are exactly the classpath indexers' names plus every child of every round that returned. |
| `Session.EarlierChildrenReachRoot` | annotation/compiler/src/main/java/com/bumptech/glide/annotation/compiler/ModuleAnnotationProcessor.java:153-156 | Every child module of any round that returned is in the written root module's name set. |
| `Session.NoRootClassified` | annotation/compiler/src/main/java/com/bumptech/glide/annotation/compiler/ModuleAnnotationProcessor.java:122-125 | A round that declares no root type yields no roots. |
| `Session.NoRootDeclared` | annotation/compiler/src/main/java/com/bumptech/glide/annotation/compiler/ModuleAnnotationProcessor.java:122-125 | Rounds that declare no root type contribute nothing to the root list. |
| `Session.NoRootNoGeneratedRoot` | annotation/compiler/src/main/java/com/bumptech/glide/annotation/compiler/ModuleAnnotationProcessor.java:164-166 | A session in which no root type is ever declared never writes the root module. |
| `Session.NothingAfterRoot` | annotation/compiler/src/main/java/com/bumptech/glide/annotation/compiler/ModuleAnnotationProcessor.java:143-166 | Once the root module is written, later rounds write nothing, keep the flag set, and never return true. |
| `Session.FinalRoundWritesRoot` | annotation/compiler/src/main/java/com/bumptech/glide/annotation/compiler/ModuleAnnotationProcessor.java:164-186 | In an empty round, a single pending root is written, provided the compiler package exists on the classpath or through an earlier indexer. |
| `Scenarios.ScanAfterIndexer` | annotation/compiler/src/main/java/com/bumptech/glide/annotation/compiler/ModuleAnnotationProcessor.java:153-156 | In round 2 the package holds the classpath element and the indexer from round 1. |
| `Scenarios.NamesAfterIndexer` | annotation/compiler/src/main/java/com/bumptech/glide/annotation/compiler/ModuleAnnotationProcessor.java:193-200 | An unannotated element plus one indexer yields exactly that indexer's names. |
| `Scenarios.ChildrenThenRoot` | annotation/compiler/src/main/java/com/bumptech/glide/annotation/compiler/ModuleAnnotationProcessor.java:143-186 | Children X, Y in round 1, then root Z in round 2: first an indexer [X, Y], then the root module Z listing {X, Y}. |
| `Scenarios.RootDeferredPastIndexer` | annotation/compiler/src/main/java/com/bumptech/glide/annotation/compiler/ModuleAnnotationProcessor.java:143-158 | Child X and root Z in one round: only the indexer [X] is written. The root module Z with {X} follows in the next, empty round. |
| `Scenarios.TwoRootsInOneRound` | annotation/compiler/src/main/java/com/bumptech/glide/annotation/compiler/ModuleAnnotationProcessor.java:138-141 | Two roots in one round: that round fails naming both, and nothing is written. |
| `Scenarios.SecondRootAfterGeneratedRoot` | annotation/compiler/src/main/java/com/bumptech/glide/annotation/compiler/ModuleAnnotationProcessor.java:138-141 | Root Z in round 1 and root Z2 in round 2: the root module for Z is written in round 1, and only round 2 fails. |
| `Scenarios.SecondRootWhileDeferred` | annotation/compiler/src/main/java/com/bumptech/glide/annotation/compiler/ModuleAnnotationProcessor.java:138-157 | Child X with root Z in round 1, then root Z2 in round 2: round 1 writes only the indexer [X], round 2 fails naming both roots, and no root module is written. |
| `Scenarios.BothKindsIsRoot` | annotation/compiler/src/main/java/com/bumptech/glide/annotation/compiler/ModuleAnnotationProcessor.java:123-128 | A type assignable to both bases is classified as a root only. |
| `Scenarios.ClasspathIndexerReachesRoot` | annotation/compiler/src/main/java/com/bumptech/glide/annotation/compiler/ModuleAnnotationProcessor.java:190-204 | A library indexer on the classpath listing L makes the application's root module list L. |
| `Scenarios.MissingPackageFails` | annotation/compiler/src/main/java/com/bumptech/glide/annotation/compiler/ModuleAnnotationProcessor.java:169-175 | With no compiler package anywhere, the root round fails and writes nothing. |
| `Scenarios.NeitherKindFails` | annotation/compiler/src/main/java/com/bumptech/glide/annotation/compiler/ModuleAnnotationProcessor.java:129-132 | A type that is neither kind fails the round, naming it, and nothing is written. |

### Behaviour of the code worth noting

- Child names are not recorded into `glideModuleClassNames` when an indexer
  is written. That set is filled only once, from the package scan, in the
  round that writes the root module. The model does the same: the name set
  stays empty until then.
- `glideModuleClassNames` is a `HashSet`, so the generated root module is
  built from a set of child names, with no pass or declaration order.
- Two root modules do not always fail before the root module is generated.
  If the second one arrives in a round after the one that wrote the root
  module, that module already exists when the later round throws
  (`Scenarios.SecondRootAfterGeneratedRoot`). If the first root was still
  deferred because its round also had child modules, the second root fails
  the next round and no root module is ever written
  (`Scenarios.SecondRootWhileDeferred`).

## Left out

- JavaPoet rendering and the Filer (`writeClass`, `writeIndexer`,
  `writeRootModule`) are I/O. Each write is an `Artifact` appended to the log.
  A Filer failure (rethrown as `RuntimeException`) is not modelled.
- `GlideIndexerGenerator` and `RootModuleGenerator` are not part of this
  model. The model assumes the indexer's `@ModuleIndex(glideModules)` lists
  exactly the round's child names in classification order. The generated
  root module is represented by its root name and child-name set.
- `init`, `getSupportedAnnotationTypes` and `getSupportedSourceVersion` are
  host wiring.
- `getElementsFor` and `isAssignable` are host type-system queries. They are
  replaced by the round's `Declaration` list and its two booleans.
- `debugLog` and `infoLog` are diagnostics only.
- The `set` argument of `process` (the round's annotation types) is unused
  by the code and is not modelled.
- The host's side of the session (which rounds happen and with which
  declarations) is an arbitrary sequence of batches. Host facts such as "the
  last round brings no new declarations" are hypotheses of
  `Session.FinalRoundWritesRoot`, not consequences of the model.
