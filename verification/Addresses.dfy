/** Addresses, pages and mappings of the profiled process (pkg/profiler/types.go). */
module Addresses {
  const PAGE: nat := 4096

  datatype AddrRange = AddrRange(start: nat, end: nat)

  datatype Vma = Vma(start: nat, end: nat, writable: bool, isPrivate: bool, vdso: bool) {
    predicate WritableAnonymous() {
      writable && isPrivate && !vdso
    }
  }

  /** The map built from a list of ranges: start address to end address, later ranges win. */
  function SetOf(ranges: seq<AddrRange>): map<nat, nat> {
    if ranges == [] then map[]
    else
      var last := ranges[|ranges| - 1];
      SetOf(ranges[..|ranges| - 1])[last.start := last.end]
  }

  /** Exactly the starts are in the map, and each has the end of the last range that starts there. */
  lemma {:induction false} SetOfIs(ranges: seq<AddrRange>, s: nat)
    ensures s in SetOf(ranges) <==> exists i :: 0 <= i < |ranges| && ranges[i].start == s
    ensures forall i :: 0 <= i < |ranges| && ranges[i].start == s &&
                        (forall j :: i < j < |ranges| ==> ranges[j].start != s) ==>
                          s in SetOf(ranges) && SetOf(ranges)[s] == ranges[i].end
  {
    if ranges != [] {
      var init := ranges[..|ranges| - 1];
      SetOfIs(init, s);
      assert forall i :: 0 <= i < |init| ==> init[i] == ranges[i];
    }
  }

  predicate Aligned(a: nat) {
    a % PAGE == 0
  }
}
