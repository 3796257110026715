/**
 Disk reservations. The total is an int64 counter, the amounts by job a map, and the two
 change in separate atomic steps; the class performs each operation alone, the machine
 in TaskRuns interleaves the steps.
 */
module DiskLedger {
  import opened Numbers
  import opened Wrappers

  const TWO63: int := 0x8000_0000_0000_0000
  const TWO64: int := 0x1_0000_0000_0000_0000

  /** Two's-complement int64. */
  function Wrap64(x: int): int { (x + TWO63) % TWO64 - TWO63 }

  lemma WrapAdd(x: int, y: int)
    ensures Wrap64(Wrap64(x) + y) == Wrap64(x + y)
  {
  }

  lemma WrapInRange(x: int)
    ensures -TWO63 <= Wrap64(x) < TWO63
    ensures Wrap64(x) == x <==> -TWO63 <= x < TWO63
  {
  }

  // ------------------------------------------------------------ effective free

  /** The lesser of the free space and what the cap leaves; a cap of 0 is no cap. */
  function Budget(free: nat, used: nat, cap: nat): nat {
    if cap == 0 then free else if used >= cap then 0 else if cap - used < free then cap - used else free
  }

  lemma BudgetIs(free: nat, used: nat, cap: nat)
    ensures cap == 0 ==> Budget(free, used, cap) == free
    ensures cap > 0 ==> Budget(free, used, cap) == Min(free, Max(0, cap - used))
  {
  }

  /** What the code computes, with its conversion of the budget to int64. */
  function Effective(budget: nat, reserved: int): int {
    if reserved <= 0 then budget else if Wrap64(budget) <= reserved then 0 else budget - reserved
  }

  /** It is the budget less the reservations exactly when the conversion does not overflow or nothing is reserved. */
  lemma EffectiveIff(budget: nat, reserved: int)
    requires budget < TWO64 && -TWO63 <= reserved < TWO63
    ensures Effective(budget, reserved) == Max(0, budget - Max(0, reserved)) <==> budget < TWO63 || reserved <= 0
  {
  }

  /** The pre-flight check passes exactly when the request fits beside what is reserved, or asks for nothing. */
  lemma AdmitIff(budget: nat, reserved: int, required: nat)
    requires budget < TWO63 && -TWO63 <= reserved < TWO63
    ensures Effective(budget, reserved) >= required <==> required == 0 || Max(0, reserved) + required <= budget
  {
  }

  // ------------------------------------------------------------- the ledger

  datatype Ledger = Ledger(total: int, entries: map<nat, nat>)

  function Add(l: Ledger, amount: int): Ledger { l.(total := Wrap64(l.total + amount)) }

  function Put(l: Ledger, id: nat, amount: nat): Ledger { l.(entries := l.entries[id := amount]) }

  function Del(l: Ledger, id: nat): Ledger { l.(entries := l.entries - {id}) }

  function Reserve(l: Ledger, id: nat, amount: nat): Ledger { Put(Add(l, amount), id, amount) }

  function Release(l: Ledger, id: nat): Ledger {
    if id in l.entries then Add(Del(l, id), 0 - (l.entries[id] as int)) else l
  }

  /** Releasing undoes reserving. */
  lemma ReleaseUndoesReserve(l: Ledger, id: nat, amount: nat)
    requires -TWO63 <= l.total < TWO63 && id !in l.entries
    ensures Release(Reserve(l, id, amount), id) == l
  {
  }

  /** Reserving twice for one job leaks the first amount: the second release finds no entry. */
  lemma SecondReserveLeaks(l: Ledger, id: nat, a: nat, b: nat)
    requires -TWO63 <= l.total < TWO63 && id !in l.entries
    ensures Release(Release(Reserve(Reserve(l, id, a), id, b), id), id) == l.(total := Wrap64(l.total + a))
  {
  }

  class DiskReservations {
    var diskReserved: int
    var reservations: map<nat, nat>
    /** The configured cap, 0 for none. */
    const diskMaxBytes: nat

    constructor (cap: nat)
      ensures diskReserved == 0 && reservations == map[] && diskMaxBytes == cap
    {
      diskReserved, reservations, diskMaxBytes := 0, map[], cap;
    }

    ghost function Value(): Ledger reads this { Ledger(diskReserved, reservations) }

    method ReserveDisk(id: nat, reserve: nat)
      modifies this
      ensures Value() == Reserve(old(Value()), id, reserve)
      ensures diskReserved == Wrap64(old(diskReserved) + reserve) && reservations == old(reservations)[id := reserve]
    {
      diskReserved := Wrap64(diskReserved + reserve);
      reservations := reservations[id := reserve];
    }

    method ReleaseDisk(id: nat)
      modifies this
      ensures Value() == Release(old(Value()), id)
      ensures reservations == old(reservations) - {id}
      ensures diskReserved == if id in old(reservations) then Wrap64(old(diskReserved) - old(reservations)[id])
                              else old(diskReserved)
    {
      if id in reservations {
        var reserve := reservations[id];
        reservations := reservations - {id};
        diskReserved := Wrap64(diskReserved - reserve);
      }
    }

    /** `measured` is the free space and the agent's own usage, or None when measuring failed. */
    method FreeDiskAfterReservations(measured: Option<(nat, nat)>) returns (r: Option<int>)
      requires -TWO63 <= diskReserved < TWO63
      requires measured.Some? ==> measured.value.0 < TWO64
      ensures r.None? <==> measured.None?
      ensures measured.Some? ==>
                var (free, used) := measured.value;
                var budget := if diskMaxBytes == 0 then free else Min(free, Max(0, diskMaxBytes - used));
                r.value == Effective(budget, diskReserved) &&
                (budget < TWO63 || diskReserved <= 0 <==> r.value == Max(0, budget - Max(0, diskReserved)))
    {
      if measured.None? {
        return None;
      }
      var free, used := measured.value.0, measured.value.1;
      if diskMaxBytes > 0 {
        if used >= diskMaxBytes {
          free := 0;
        } else {
          var remaining := diskMaxBytes - used;
          if remaining < free {
            free := remaining;
          }
        }
      }
      EffectiveIff(free, diskReserved);
      if diskReserved <= 0 {
        return Some(free);
      }
      if Wrap64(free) <= diskReserved {
        return Some(0);
      }
      r := Some(free - diskReserved);
    }
  }
}
