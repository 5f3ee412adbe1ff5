/**
 The part of the device driver that the chunked allocator uses: address ranges,
 physical handles and mappings.  Reserving, creating, mapping and setting access may
 fail at any call; unmapping, releasing and freeing succeed exactly on valid arguments.
 */
module DeviceMemory {
  const TwoTo64: nat := 0x1_0000_0000_0000_0000

  datatype Mapping = Mapping(size: nat, handle: nat)

  predicate Apart(a: nat, aSize: nat, b: nat, bSize: nat) {
    a + aSize <= b || b + bSize <= a
  }

  /** Nothing is mapped in the range. */
  predicate Clear(mapped: map<nat, Mapping>, address: nat, size: nat) {
    forall a :: a in mapped ==> Apart(a, mapped[a].size, address, size)
  }

  /** One range to which access was set. */
  datatype Grant = Grant(address: nat, size: nat)

  /** What a call that answers with the status adds to the record of failed calls. */
  ghost function Fault(status: int): seq<int> {
    if status == 0 then [] else [status]
  }

  /** The first of the failures added to the record, 0 if there is none. */
  ghost function FirstFault(before: seq<int>, after: seq<int>): int
    requires before <= after
  {
    if |before| == |after| then 0 else after[|before|]
  }

  class Device {
    const granularity: nat
    var reserved: map<nat, nat>
    var live: map<nat, nat>
    var mapped: map<nat, Mapping>

    /** A record of the calls: how those that failed answered, and what access was set to. */
    ghost var faults: seq<int>
    ghost var granted: seq<Grant>

    constructor (granularity: nat)
      ensures this.granularity == granularity
      ensures reserved == map[] && live == map[] && mapped == map[]
      ensures faults == [] && granted == []
    {
      this.granularity := granularity;
      reserved, live, mapped := map[], map[], map[];
      faults, granted := [], [];
    }

    /** Some error code of the driver. */
    static method Failure() returns (status: int)
      ensures status != 0
    {
      var code: int := *;
      status := if code == 0 then 1 else code;
    }

    method GetAllocationGranularity() returns (status: int, g: nat)
      modifies this`faults
      ensures g == granularity && faults == old(faults) + Fault(status)
    {
      g := granularity;
      status := *;
      faults := faults + Fault(status);
    }

    method AddressReserve(size: nat, alignment: nat) returns (status: int, address: nat)
      requires alignment > 0
      modifies this`reserved, this`faults
      ensures faults == old(faults) + Fault(status)
      ensures status != 0 ==> reserved == old(reserved)
      ensures status == 0 ==>
        && reserved == old(reserved)[address := size] && address !in old(reserved)
        && 0 < size && address % alignment == 0 && address + size <= TwoTo64
        && forall a :: a in old(reserved) ==> Apart(a, old(reserved)[a], address, size)
    {
      address := *;
      var fails: bool := *;
      if fails || size == 0 || address % alignment != 0 || address + size > TwoTo64 || address in reserved ||
         !forall a :: a in reserved ==> Apart(a, reserved[a], address, size)
      {
        status := Failure();
      } else {
        status := 0;
        reserved := reserved[address := size];
      }
      faults := faults + Fault(status);
    }

    method AddressFree(address: nat, size: nat) returns (status: int)
      modifies this`reserved, this`faults
      ensures faults == old(faults) + Fault(status)
      ensures
        if address in old(reserved) && old(reserved)[address] == size && Clear(mapped, address, size)
        then status == 0 && reserved == old(reserved) - {address}
        else status != 0 && reserved == old(reserved)
    {
      if address in reserved && reserved[address] == size && Clear(mapped, address, size) {
        status := 0;
        reserved := reserved - {address};
      } else {
        status := Failure();
      }
      faults := faults + Fault(status);
    }

    method MemCreate(size: nat) returns (status: int, handle: nat)
      modifies this`live, this`faults
      ensures faults == old(faults) + Fault(status)
      ensures status != 0 ==> live == old(live)
      ensures status == 0 ==> handle !in old(live) && live == old(live)[handle := size]
    {
      handle := *;
      var fails: bool := *;
      if fails || handle in live {
        status := Failure();
      } else {
        status := 0;
        live := live[handle := size];
      }
      faults := faults + Fault(status);
    }

    method MemRelease(handle: nat) returns (status: int)
      modifies this`live, this`faults
      ensures faults == old(faults) + Fault(status)
      ensures
        if handle in old(live) then status == 0 && live == old(live) - {handle}
        else status != 0 && live == old(live)
    {
      if handle in live {
        status := 0;
        live := live - {handle};
      } else {
        status := Failure();
      }
      faults := faults + Fault(status);
    }

    method MemMap(address: nat, size: nat, handle: nat) returns (status: int)
      modifies this`mapped, this`faults
      ensures faults == old(faults) + Fault(status)
      ensures status != 0 ==> mapped == old(mapped)
      ensures status == 0 ==>
        && handle in live && live[handle] == size
        && address !in old(mapped) && mapped == old(mapped)[address := Mapping(size, handle)]
        && forall a :: a in old(mapped) ==> Apart(a, old(mapped)[a].size, address, size)
    {
      var fails: bool := *;
      if fails || handle !in live || live[handle] != size || address in mapped ||
         !forall a :: a in mapped ==> Apart(a, mapped[a].size, address, size)
      {
        status := Failure();
      } else {
        status := 0;
        mapped := mapped[address := Mapping(size, handle)];
      }
      faults := faults + Fault(status);
    }

    method MemUnmap(address: nat, size: nat) returns (status: int)
      modifies this`mapped, this`faults
      ensures faults == old(faults) + Fault(status)
      ensures
        if address in old(mapped) && old(mapped)[address].size == size
        then status == 0 && mapped == old(mapped) - {address}
        else status != 0 && mapped == old(mapped)
    {
      if address in mapped && mapped[address].size == size {
        status := 0;
        mapped := mapped - {address};
      } else {
        status := Failure();
      }
      faults := faults + Fault(status);
    }

    method MemSetAccess(address: nat, size: nat) returns (status: int)
      modifies this`faults, this`granted
      ensures faults == old(faults) + Fault(status)
      ensures granted == if status == 0 then old(granted) + [Grant(address, size)] else old(granted)
    {
      status := *;
      faults := faults + Fault(status);
      granted := if status == 0 then granted + [Grant(address, size)] else granted;
    }
  }
}
