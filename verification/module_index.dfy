/**
 The scan of the compiler package in `getGlideModuleClassNames`: every
 element that carries a `@ModuleIndex` annotation contributes the names in
 its `glideModules` list, every other element is ignored.
 */
module ModuleIndexScan {
  import opened Options
  import opened Elements

  /**
   An element enclosed by the compiler package. `moduleIndex` is the
   `glideModules` value of its `@ModuleIndex` annotation, `None` when the
   element has no such annotation.
   */
  datatype PackageElement = PackageElement(moduleIndex: Option<seq<Name>>)

  /** Element `e` is an indexer whose annotation lists `n`. */
  predicate Lists(e: PackageElement, n: Name) {
    e.moduleIndex.Some? && n in e.moduleIndex.value
  }

  /** The names listed by the package's indexers: a union, so order and duplicates are lost. */
  function IndexedNames(elements: seq<PackageElement>): (r: set<Name>)
    ensures forall n :: n in r <==> exists i :: 0 <= i < |elements| && Lists(elements[i], n)
    decreases |elements|
  {
    if |elements| == 0 then
      {}
    else
      var last := elements[|elements| - 1];
      var earlier := IndexedNames(elements[..|elements| - 1]);
      match last.moduleIndex
      case None => earlier
      case Some(names) => earlier + (set n | n in names)
  }

  /** The loop of `getGlideModuleClassNames`, element by element in package order. */
  method GlideModuleClassNames(elements: seq<PackageElement>) returns (names: set<Name>)
    ensures names == IndexedNames(elements)
  {
    names := {};
    var i := 0;
    while i < |elements|
      invariant 0 <= i <= |elements|
      invariant names == IndexedNames(elements[..i])
    {
      match elements[i].moduleIndex {
        case None =>
        case Some(listed) => names := names + (set n | n in listed);
      }
      assert elements[..i + 1][..i] == elements[..i];
      i := i + 1;
    }
    assert elements[..i] == elements;
  }

  /** Scanning two runs of elements one after the other finds the union of both scans. */
  lemma {:induction false} IndexedNamesAppend(a: seq<PackageElement>, b: seq<PackageElement>)
    ensures IndexedNames(a + b) == IndexedNames(a) + IndexedNames(b)
    decreases |b|
  {
    if |b| == 0 {
      assert a + b == a;
    } else {
      var b' := b[..|b| - 1];
      assert (a + b)[..|a + b| - 1] == a + b';
      IndexedNamesAppend(a, b');
    }
  }
}
