/** From loading an executable to the teardown of its process. */
module ProgramLives {
  import opened Hardware
  import opened PageTables
  import opened AddressSpaces
  import opened ElfLoader
  import opened ProcessMemory

  // A process for a program that was loaded, its memory calls, and its end.
  method RunProgram(vm: Vmm, p: Frame, calls: seq<Call>, ghost was: Snap)
    requires Ours(vm, p, was) && Unmade(vm, p, was)
    requires forall i :: 0 <= i < |calls| ==> Sane(calls[i])
    modifies vm, vm.pm, vm.pm.ranges
    ensures vm.Valid() && vm.stock == was.stock && vm.tab == was.tab && vm.view == was.view
    ensures KeepsBytes(was.stock, was.bytes, vm.pm.bytes) && vm.pm.free + vm.pm.lost == was.free + was.lost
    ensures vm.pm.lost == was.lost || vm.pm.Roomy() ==> vm.pm.list == was.list
  {
    var pr := new Process(vm, p, was.stock);
    WholeLife(pr, calls);
    Restored(was.tab, old(vm.tab), vm.tab, p);
    Restored(was.view, old(vm.view), vm.view, p);
    SameReturned(was.list, vm.pm.list, vm.tab, vm.pm.managed, vm.stock, was.free, vm.pm.free, was.lost, vm.pm.lost);
  }

  /** Load a file, run it with any memory calls, tear it down: whether or not the load succeeds, tables, translations
      and free pages are as before, and the free list is the same list unless so many pages were in use that the
      free-range array could be full. */
  method Program(vm: Vmm, file: seq<Byte>, calls: seq<Call>) returns (code: int)
    requires vm.Valid() && |file| < 0x1_0000_0000_0000_0000
    requires forall i :: 0 <= i < |calls| ==> Sane(calls[i])
    modifies vm, vm.pm, vm.pm.ranges
    ensures vm.Valid() && vm.tab == old(vm.tab) && vm.view == old(vm.view) && vm.stock == old(vm.stock)
    ensures vm.pm.free + vm.pm.lost == old(vm.pm.free + vm.pm.lost)
    ensures vm.pm.lost == old(vm.pm.lost) || vm.pm.Roomy() ==> vm.pm.list == old(vm.pm.list)
    ensures KeepsBytes(old(vm.stock), old(vm.pm.bytes), vm.pm.bytes)
  {
    ghost var was := Now(vm);
    var p, entry;
    code, p, entry := ElfLoad(vm, file, false);
    if code == 0 { RunProgram(vm, p, calls, was); }
  }
}
