/**
 The host's view of the types annotated with `@GlideModule` in one round, and
 the classification loop at the start of `ModuleAnnotationProcessor.process`.
 */
module Elements {
  import opened Options

  /** A fully qualified class name. */
  type Name = string

  /**
   One `@GlideModule`-annotated type of the current round. The two flags are
   the host type system's answers to "is this type assignable to
   RootGlideModule" and "... to ChildGlideModule".
   */
  datatype Declaration = Declaration(name: Name, isRootModule: bool, isChildModule: bool)

  /** A declaration the processor accepts: assignable to one of the two base types. */
  predicate IsGlideModule(d: Declaration) {
    d.isRootModule || d.isChildModule
  }

  /** A declaration the processor counts as a child: the root test runs first. */
  predicate IsChild(d: Declaration) {
    !d.isRootModule && d.isChildModule
  }

  /**
   What the classification loop leaves behind: the roots and the children it
   saw, in order, and the first declaration that is neither, if any. The loop
   stops at that declaration, so the two lists only hold the declarations
   before it (`ClassifiedBeforeRejection`).
   */
  datatype Partition = Partition(roots: seq<Name>, children: seq<Name>, rejected: Option<Name>)

  /** `i` is the position of the first declaration that is neither a root nor a child. */
  predicate IsFirstRejected(batch: seq<Declaration>, i: int) {
    && 0 <= i < |batch|
    && !IsGlideModule(batch[i])
    && forall j :: 0 <= j < i ==> IsGlideModule(batch[j])
  }

  /** The per-element loop of `process`: root test first, then child test, else fail. */
  function Classify(batch: seq<Declaration>): (p: Partition)
    ensures p.rejected.None? <==> forall i :: 0 <= i < |batch| ==> IsGlideModule(batch[i])
    ensures p.rejected.Some? ==>
              exists i :: IsFirstRejected(batch, i) && batch[i].name == p.rejected.value
    ensures p.rejected.None? ==> |p.roots| + |p.children| == |batch|
    ensures p.rejected.None? ==>
              forall i :: 0 <= i < |batch| && batch[i].isRootModule ==> batch[i].name in p.roots
    ensures p.rejected.None? ==>
              forall i :: 0 <= i < |batch| && IsChild(batch[i]) ==> batch[i].name in p.children
    ensures forall n :: n in p.roots ==>
              exists i :: 0 <= i < |batch| && batch[i].isRootModule && batch[i].name == n
    ensures forall n :: n in p.children ==>
              exists i :: 0 <= i < |batch| && IsChild(batch[i]) && batch[i].name == n
    decreases |batch|
  {
    if |batch| == 0 then
      Partition([], [], None)
    else
      var d := batch[0];
      if d.isRootModule then
        var p := Classify(batch[1..]);
        p.(roots := [d.name] + p.roots)
      else if d.isChildModule then
        var p := Classify(batch[1..]);
        p.(children := [d.name] + p.children)
      else
        Partition([], [], Some(d.name))
  }

  /**
   After a rejection, the two lists hold only declarations that come before
   the rejected one: the loop throws there and never looks further.
   */
  lemma {:induction false} ClassifiedBeforeRejection(batch: seq<Declaration>)
    requires Classify(batch).rejected.Some?
    ensures forall n :: n in Classify(batch).roots ==>
              exists i, k :: IsFirstRejected(batch, k) && 0 <= i < k && batch[i].isRootModule && batch[i].name == n
    ensures forall n :: n in Classify(batch).children ==>
              exists i, k :: IsFirstRejected(batch, k) && 0 <= i < k && IsChild(batch[i]) && batch[i].name == n
    decreases |batch|
  {
    if IsGlideModule(batch[0]) {
      var tail := batch[1..];
      ClassifiedBeforeRejection(tail);
      var k' :| IsFirstRejected(tail, k');
      assert IsFirstRejected(batch, k' + 1);
    }
  }

  /** The names of the child modules of one round, as a set. */
  function ChildrenOf(batch: seq<Declaration>): set<Name> {
    set i | 0 <= i < |batch| && IsChild(batch[i]) :: batch[i].name
  }

  /** When the loop accepts every declaration, its child list holds exactly the round's children. */
  lemma ClassifiedChildren(batch: seq<Declaration>)
    requires Classify(batch).rejected.None?
    ensures (set n | n in Classify(batch).children) == ChildrenOf(batch)
  {
  }
}
