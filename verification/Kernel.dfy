/** Several processes over one physical arena.  Any schedule of memory calls,
    stores and image reservations keeps every process sound, and work for one
    process is invisible to the others. */
module Kernels {
  import opened Frames
  import opened Ownership
  import opened PageTables
  import opened GuestMemory
  import opened Mappings
  import opened MapTables
  import opened Processes
  import opened Words
  import S = Spaces

  datatype Call =
    | Brk(requested: nat)
    | Mmap(address: nat, length: nat, protection: nat, flags: nat)
    | Munmap(address: nat, length: nat)
    | Mprotect(address: nat, length: nat, protection: nat)
    | Mremap(address: nat, oldLength: nat, newLength: nat, flags: nat, fixedAddress: nat)
    | Store(address: nat, value: nat, size: nat)

  datatype Event =
    | Run(process: nat, call: Call)
    | Reserve(reserved: nat, busy: bool)
    | Release(at: nat, released: nat, held: bool)

  /** What one call answers and does to the address space of its process. */
  ghost predicate Effect(s: S.Space, t: S.Space, call: Call, r: int) {
    match call
    case Brk(requested) =>
      r == t.brk && if requested != 0 && S.BreakAllowed(s, requested) then S.BreakMoved(s, t, requested) else t == s
    case Mmap(address, length, protection, flags) =>
      && S.MapAnswer(s, address, length, protection, flags, r)
      && if r < 0 then t == s else S.RangeMapped(s, t, Mapping(r, r + PageUp(length), protection, flags, -1, 0, 0))
    case Munmap(address, length) =>
      && r == UnmapAnswer(s.list, s.top, address, length)
      && if r == 0 then S.RangeUnmapped(s, t, address, address + PageUp(length)) else t == s
    case Mprotect(address, length, protection) =>
      && r == ProtectAnswer(s.list, s.top, address, length, protection)
      && if r == 0 then S.RangeProtected(s, t, address, address + PageUp(length), protection) else t == s
    case Mremap(address, oldLength, newLength, flags, fixedAddress) =>
      S.RemapAnswer(s, t, address, oldLength, newLength, flags, fixedAddress, r)
    case Store(address, value, size) =>
      && t == s.(mem := t.mem)
      && (if S.Allowed(s, address, size, S.WRITE) then ChangedWithin(s.mem, t.mem, address, address + size)
          else r == 0 && t == s)
      && (r == 1 ==> Deposited(s.mem, t.mem, address, value, size))
  }

  ghost function Footprint(p: Process): set<object> {
    {p, p.table, p.table.maps, p.memory, p.memory.entries}
  }

  /** A process keeps its address space while another one works. */
  twostate lemma Unaffected(p: Process, new q: Process)
    requires old(p.Valid()) && p.memory.arena == q.memory.arena && p.memory != q.memory
    requires unchanged(p, p.table, p.table.maps, p.memory, p.memory.entries)
    requires p.memory.arena.Valid()
    requires OnlyFor(old(p.memory.arena.contents), p.memory.arena.contents, p.memory.arena.base, q.memory,
                     p.memory.arena.imageTop)
    ensures p.Valid() && p.State() == old(p.State())
  {
    var t, c, d := p.memory.view, old(p.memory.arena.contents), p.memory.arena.contents;
    Unfold(t, c, p.memory.arena.base, p.memory, FOLDS);
    OthersUnaffected(t, c, d, p.memory.arena.base, p.memory, q.memory, p.memory.arena.imageTop);
    Fold(t, d, p.memory.arena.base, p.memory, FOLDS);
  }

  method Perform(p: Process, call: Call) returns (r: int)
    requires p.Valid()
    modifies Footprint(p), p.memory.arena`next, p.memory.arena`contents, p.memory.arena.bytes
    ensures p.Valid() && Effect(old(p.State()), p.State(), call, r)
    ensures OnlyFor(old(p.memory.arena.contents), p.memory.arena.contents, p.memory.arena.base, p.memory,
                    p.memory.arena.imageTop)
  {
    OnlyForNothing(p.memory.arena.contents, p.memory.arena.base, p.memory, p.memory.arena.imageTop);
    match call {
      case Brk(requested) =>
        r := p.ProgramBreak(requested);
      case Mmap(address, length, protection, flags) =>
        r := p.AnonymousMap(address, length, protection, flags);
      case Munmap(address, length) =>
        r := p.AnonymousUnmap(address, length);
      case Mprotect(address, length, protection) =>
        r := p.Protect(address, length, protection);
      case Mremap(address, oldLength, newLength, flags, fixedAddress) =>
        r := p.RemapAnonymous(address, oldLength, newLength, flags, fixedAddress);
      case Store(address, value, size) =>
        var ok := p.StoreInteger(address, value, size);
        r := if ok then 1 else 0;
    }
  }

  class Kernel {
    const arena: Arena
    const processes: seq<Process>

    ghost predicate Separated()
      reads this
    {
      && (forall i :: 0 <= i < |processes| ==>
          processes[i].memory.arena == arena && {this, arena, arena.bytes} !! Footprint(processes[i]))
      && (forall i, j :: 0 <= i < j < |processes| ==> Footprint(processes[i]) !! Footprint(processes[j]))
    }

    ghost predicate Valid()
      reads this, arena, arena.bytes
      reads set p, o | p in processes && o in Footprint(p) :: o
    {
      arena.Valid() && Separated() && forall i :: 0 <= i < |processes| ==> processes[i].Valid()
    }

    constructor (a: Arena, ps: seq<Process>)
      requires a.Valid()
      requires forall i :: 0 <= i < |ps| ==>
               ps[i].Valid() && ps[i].memory.arena == a && {a, a.bytes} !! Footprint(ps[i])
      requires forall i, j :: 0 <= i < j < |ps| ==> Footprint(ps[i]) !! Footprint(ps[j])
      ensures Valid() && arena == a && processes == ps
    {
      arena, processes := a, ps;
    }

    /** Processes other than `i` keep their address spaces. */
    twostate lemma Bystanders(i: nat)
      requires old(Valid()) && i < |processes| && arena.Valid() && processes[i].Valid()
      requires OnlyFor(old(arena.contents), arena.contents, arena.base, processes[i].memory, arena.imageTop)
      requires forall j :: 0 <= j < |processes| && j != i ==> unchanged(Footprint(processes[j]))
      ensures Valid()
      ensures forall j :: 0 <= j < |processes| && j != i ==> processes[j].State() == old(processes[j].State())
    {
      forall j | 0 <= j < |processes| && j != i
        ensures processes[j].Valid() && processes[j].State() == old(processes[j].State())
      {
        assert Footprint(processes[i]) !! Footprint(processes[j]);
        Unaffected(processes[j], processes[i]);
      }
    }

    /** One call of process `i`: it does what the call does to that process, and
        nothing to any other. */
    method Execute(i: nat, call: Call) returns (r: int)
      requires Valid() && i < |processes|
      modifies Footprint(processes[i]), arena`next, arena`contents, arena.bytes
      ensures Valid()
      ensures Effect(old(processes[i].State()), processes[i].State(), call, r)
      ensures forall j :: 0 <= j < |processes| && j != i ==> processes[j].State() == old(processes[j].State())
    {
      r := Perform(processes[i], call);
      Bystanders(i);
    }

    /** Reserving and releasing image space touches no process. */
    method Image(event: Event)
      requires Valid() && !event.Run?
      modifies arena`imageTop, arena`imageSize, arena`imageLock
      ensures Valid()
      ensures forall j :: 0 <= j < |processes| ==> processes[j].State() == old(processes[j].State())
    {
      match event {
        case Reserve(size, busy) =>
          var _, _ := arena.ImageReserve(size, busy);
        case Release(at, size, busy) =>
          var _ := arena.ImageRelease(at, size, busy);
      }
    }

    /** Any schedule of calls and reservations keeps the kernel valid. */
    method Schedule(events: seq<Event>)
      requires Valid()
      modifies arena, arena.bytes, set p, o | p in processes && o in Footprint(p) :: o
      ensures Valid()
    {
      var n := 0;
      while n < |events|
        invariant 0 <= n <= |events| && Valid()
      {
        match events[n] {
          case Run(i, call) =>
            if i < |processes| { var _ := Execute(i, call); }
          case Reserve(_, _) =>
            Image(events[n]);
          case Release(_, _, _) =>
            Image(events[n]);
        }
        n := n + 1;
      }
    }

    /** In a valid kernel the frames of two different pages, of one process or
        of two, never meet, and none reaches the live image reservation. */
    lemma FramesApart(i: nat, j: nat, p: nat, q: nat)
      requires Valid() && i < |processes| && j < |processes|
      requires p in processes[i].memory.view.slotOf && q in processes[j].memory.view.slotOf && (i != j || p != q)
      ensures var t, u := processes[i].memory.view, processes[j].memory.view;
              && |t.entries| == |u.entries| == PAGE_CAPACITY && t.slotOf[p] < PAGE_CAPACITY
              && u.slotOf[q] < PAGE_CAPACITY
              && var f, g := t.entries[t.slotOf[p]].frame, u.entries[u.slotOf[q]].frame;
              && (f + PAGE_SIZE <= g || g + PAGE_SIZE <= f)
              && arena.base <= f && f + PAGE_SIZE <= arena.imageTop
    {
      var t, u, c := processes[i].memory.view, processes[j].memory.view, arena.contents;
      Unfold(t, c, arena.base, processes[i].memory, FOLDS);
      Unfold(u, c, arena.base, processes[j].memory, FOLDS);
      assert i != j ==> Footprint(processes[i]) !! Footprint(processes[j]);
      FramesNeverMeet(t, u, c, arena.base, processes[i].memory, processes[j].memory, p, q);
      PageInArena(t, c, arena.base, processes[i].memory, p, t.entries[t.slotOf[p]].frame);
    }
  }
}
