/** The allocator object. Every method but the checks is one critical section. */
module GpioAllocator {
  import opened Bytes
  import opened GpioSpec

  /** A granted claim's lease (none for the "no pin" value), or why it was refused. */
  datatype Acquired = Granted(lease: Option<nat>) | Refused(error: Error)

  /** std::all_of over the holder list. */
  method AllHoldersHave(role: PinRole, holders: seq<PinHolder>) returns (all: bool)
    ensures all <==> forall h <- holders :: h.role == role
  {
    for i := 0 to |holders|
      invariant forall k :: 0 <= k < i ==> holders[k].role == role
    {
      if holders[i].role != role {
        assert holders[i] in holders;
        return false;
      }
    }
    return true;
  }

  method CheckShareable(role: PinRole, holders: seq<PinHolder>) returns (ok: bool)
    ensures ok <==> Shareable(role, holders)
  {
    if |holders| == 0 {
      return true;
    }
    if RoleIsPassive(role) || role == Led {
      ok := AllHoldersHave(role, holders);
      return;
    }
    return false;
  }

  class GPIOAllocator {
    const board: Board
    var entries: seq<PinEntry>
    var controls: seq<PinControl>
    var leases: map<nat, Lease>
    var releases: multiset<nat>
    var nextLease: nat
    var nextClaim: nat

    ghost function State(): World
      reads this
    {
      World(entries, controls, leases, releases, nextLease, nextClaim)
    }

    constructor (board: Board)
      ensures this.board == board && State() == Initial(board)
    {
      this.board := board;
      entries := seq(board.max, _ => PinEntry([], None));
      controls, leases, releases, nextLease, nextClaim := [], map[], multiset{}, 0, 0;
    }

    method ValidateLocked(c: Claim) returns (error: Option<Error>)
      requires WellFormed(board, State())
      ensures error == Verdict(board, State(), c)
    {
      if NoPin(c.pin) || c.pin >= board.max || c.pin !in board.valid {
        return Some(INVALID_GPIO_NUM);
      }
      if c.pin in board.restricted {
        return Some(RESTRICTED);
      }
      if DrivesOutput(c.mode) && c.pin !in board.output {
        return Some(INVALID_GPIO_DIRECTION);
      }
      var entry := entries[c.pin];
      if |entry.holders| != 0 {
        if ControlExpired(entry.control) {
          return None;
        }
        var ok := CheckShareable(c.role, entry.holders);
        if !ok {
          return Some(ALREADY_OWNED);
        }
      }
      return None;
    }

    predicate ControlExpired(control: Option<nat>)
      reads this
      ensures ControlExpired(control) == Expired(State(), control)
    {
      control.None? || forall l <- leases.Values :: l.control != control.value
    }

    method Validate(c: Claim) returns (error: Option<Error>)
      requires WellFormed(board, State())
      ensures error == if NoPin(c.pin) then None else Verdict(board, State(), c)
    {
      if NoPin(c.pin) {
        return None;
      }
      error := ValidateLocked(c);
    }

    method AcquirePin(c: Claim) returns (result: Acquired)
      requires WellFormed(board, State())
      modifies this
      ensures State() == Next(board, old(State()), Acquire(c))
      ensures result == if NoPin(c.pin) then Granted(None)
                        else if Verdict(board, old(State()), c).Some? then Refused(Verdict(board, old(State()), c).value)
                        else Granted(Some(old(nextLease)))
    {
      if NoPin(c.pin) {
        return Granted(None);
      }
      var error := ValidateLocked(c);
      if error.Some? {
        return Refused(error.value);
      }
      var entry := entries[c.pin];
      var id: nat;
      if ControlExpired(entry.control) {
        id := |controls|;
        controls := controls + [PinControl(c.pin, c.mode)];
      } else {
        id := entry.control.value;
      }
      entries := entries[c.pin := PinEntry(entry.holders + [PinHolder(c.consumer, c.role, c.tag)], Some(id))];
      leases := leases[nextLease := Lease(id, nextClaim, c.role)];
      result := Granted(Some(nextLease));
      nextLease, nextClaim := nextLease + 1, nextClaim + 1;
    }

    method CopyLease(l: nat) returns (copy: nat)
      requires WellFormed(board, State()) && l in leases
      modifies this
      ensures State() == Next(board, old(State()), Copy(l)) && copy == old(nextLease)
    {
      copy := nextLease;
      leases := leases[copy := leases[l]];
      nextLease := nextLease + 1;
    }

    /** The last drop runs the destructor up to, but not including, its release. */
    method DropLease(l: nat)
      requires WellFormed(board, State()) && l in leases && leases[l].control < |controls|
      modifies this
      ensures State() == Next(board, old(State()), Drop(l))
    {
      var id := leases[l].control;
      leases := leases - {l};
      if ControlExpired(Some(id)) {
        releases := releases + multiset{controls[id].pin};
      }
    }

    method ReleaseEntry(pin: nat)
      requires WellFormed(board, State()) && pin in releases
      modifies this
      ensures State() == Next(board, old(State()), Release(pin))
    {
      releases := releases - multiset{pin};
      if ControlExpired(entries[pin].control) {
        entries := entries[pin := entries[pin].(holders := [])];
      }
    }
  }
}
