/** The allocation counters as a lone thread uses them. */
module Counters {
  import opened Allocator

  /** The counters as one thread uses them, each method a whole call. */
  class CountingAllocator {
    var count: nat
    var bytes: nat
    var current: int
    var peak: nat
    ghost var live: int
    ghost var top: int
    ghost var calls: nat
    ghost var grown: nat

    ghost function View(): State
      reads this
    {
      State(count, bytes, current, peak, [Idle], live, top, calls, grown)
    }

    ghost predicate Valid()
      reads this
    {
      Inv(View())
    }

    constructor ()
      ensures Valid() && View() == State(0, 0, 0, 0, [Idle], 0, 0, 0, 0)
    {
      count, bytes, current, peak := 0, 0, 0, 0;
      live, top, calls, grown := 0, 0, 0, 0;
      new;
      QuietInv(View());
    }

    method Alloc(size: nat)
      requires Valid()
      modifies this
      ensures Valid() && View() == Call(old(View()), Action.Alloc(size))
      ensures current == live && peak == Max(top, 0)
    {
      CallKeeps(View(), Action.Alloc(size));
      AllocIs(View(), size);
      live, calls, grown := live + size, calls + 1, grown + size;
      count := count + 1;
      bytes := bytes + size;
      current := current + size;
      top := Max(top, current);
      peak := Max(peak, Max(current, 0));
      QuietOwesNothing([Idle]);
    }

    method Dealloc(size: nat)
      requires Valid()
      modifies this
      ensures Valid() && View() == Call(old(View()), Action.Dealloc(size))
      ensures current == live && peak == Max(top, 0)
    {
      CallKeeps(View(), Action.Dealloc(size));
      DeallocIs(View(), size);
      live := live - size;
      current := current - size;
      QuietOwesNothing([Idle]);
    }

    method Realloc(from: nat, to: nat)
      requires Valid()
      modifies this
      ensures Valid() && View() == Call(old(View()), Action.Realloc(from, to))
      ensures current == live && peak == Max(top, 0)
    {
      CallKeeps(View(), Action.Realloc(from, to));
      ReallocIs(View(), from, to);
      var diff := to - from;
      live := live + diff;
      if diff > 0 {
        calls, grown := calls + 1, grown + diff;
        count := count + 1;
        bytes := bytes + diff;
      }
      current := current + diff;
      top := Max(top, current);
      peak := Max(peak, Max(current, 0));
      QuietOwesNothing([Idle]);
    }

    method ResetCounters()
      requires Valid()
      modifies this
      ensures Valid() && View() == Reset(old(View()))
    {
      ResetWhenQuiet(View());
      calls, grown, top := 0, 0, current;
      count, bytes := 0, 0;
      peak := Max(current, 0);
    }

    /** Between reset and snapshot a lone thread gets exactly its calls, its bytes and its peak. */
    method Snapshot() returns (c: nat, b: nat, p: nat)
      requires Valid()
      ensures c == calls && b == grown && p == Max(top, 0)
    {
      QuietOwesNothing([Idle]);
      c, b, p := count, bytes, peak;
    }
  }
}
