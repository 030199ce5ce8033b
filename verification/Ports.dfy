/** The allocator of UDP source ports of section 4 of RFC 5881. */
module Ports {
  import opened Bytes

  const SOURCE_PORT_MIN: u16 := 49152
  const SOURCE_PORT_MAX: u16 := 65535
  const PORT_SPAN: nat := 16384

  datatype PortError = PortExhausted | RandomSourceFailed

  predicate InRange(port: u16) {
    49152 <= port <= 65535
  }

  function PortAt(offset: nat, i: nat): u16 {
    SOURCE_PORT_MIN + (offset + i) % PORT_SPAN
  }

  predicate Within(p: u16, lo: nat, n: nat) {
    lo <= p < lo + n
  }

  function Interval(lo: nat, n: nat): set<u16> {
    set p: u16 | lo <= p < lo + n && Within(p, lo, n)
  }

  lemma {:induction false} IntervalSize(lo: nat, n: nat)
    requires lo + n <= 0x10000
    ensures |Interval(lo, n)| == n
  {
    if n > 0 {
      IntervalSize(lo, n - 1);
      assert Interval(lo, n) == Interval(lo, n - 1) + {lo + n - 1};
    }
  }

  lemma RangeSize(inUse: set<u16>)
    requires forall p :: p in inUse ==> InRange(p)
    ensures inUse <= Interval(SOURCE_PORT_MIN, PORT_SPAN) && |inUse| <= PORT_SPAN == |Interval(SOURCE_PORT_MIN, PORT_SPAN)|
  {
    IntervalSize(SOURCE_PORT_MIN, PORT_SPAN);
    SubsetSize(inUse, Interval(SOURCE_PORT_MIN, PORT_SPAN));
  }

  lemma {:induction false} SubsetSize<T>(a: set<T>, b: set<T>)
    requires a <= b
    ensures |a| <= |b|
    ensures |a| == |b| ==> a == b
  {
    if a != {} {
      var x :| x in a;
      SubsetSize(a - {x}, b - {x});
    }
  }

  /** There is a free port exactly while fewer ports than the range holds are in use. */
  lemma FreeIff(inUse: set<u16>)
    requires forall p :: p in inUse ==> InRange(p)
    ensures |inUse| < PORT_SPAN <==> exists p: u16 :: InRange(p) && p !in inUse
  {
    var all := Interval(SOURCE_PORT_MIN, PORT_SPAN);
    RangeSize(inUse);
    SubsetSize(inUse, all);
    if |inUse| < PORT_SPAN {
      assert exists p: u16 :: p in all && p !in inUse by {
        if forall p: u16 :: p in all ==> p in inUse {
          assert all <= inUse;
          SubsetSize(all, inUse);
        }
      }
    } else {
      assert inUse == all;
    }
  }

  /** Probing begins at the offset and goes up, from 65535 on to 49152. */
  lemma ProbeOrder(offset: nat, i: nat)
    ensures PortAt(offset, 0) == 49152 + offset % 16384
    ensures PortAt(offset, i + 1) == if PortAt(offset, i) == 65535 then 49152 else PortAt(offset, i) + 1
  {
  }

  /** Probing from any offset meets every port of the range. */
  lemma ProbeMeets(offset: nat, port: u16) returns (i: nat)
    requires offset < PORT_SPAN && InRange(port)
    ensures i < PORT_SPAN && PortAt(offset, i) == port
  {
    var at := port - SOURCE_PORT_MIN;
    i := if at >= offset then at - offset else at - offset + PORT_SPAN;
  }

  /** Every history of allocations and releases goes through these methods, so what they
      keep holds of every history. */
  class SourcePortAllocator {
    var inUse: set<u16>

    ghost predicate Valid()
      reads this
    {
      forall p :: p in inUse ==> InRange(p)
    }

    constructor ()
      ensures Valid() && inUse == {}
    {
      inUse := {};
    }

    /** Allocation fails for want of a port only when none is free; the error behind the
        probing loop is never returned. */
    method Allocate(random: Option<nat>) returns (r: Result<u16, PortError>)
      requires Valid() && (random.Some? ==> random.value < PORT_SPAN)
      modifies this
      ensures Valid()
      ensures r.Ok? ==> InRange(r.value) && r.value !in old(inUse) && inUse == old(inUse) + {r.value}
      ensures r.Err? ==> inUse == old(inUse)
      ensures r == Err(PortExhausted) <==> forall p: u16 :: InRange(p) ==> p in old(inUse)
      ensures r == Err(RandomSourceFailed) <==> random.None? && exists p: u16 :: InRange(p) && p !in old(inUse)
      ensures r.Ok? ==> exists i: nat :: && i < PORT_SPAN && r.value == PortAt(random.value, i)
                                         && forall j: nat :: j < i ==> PortAt(random.value, j) in old(inUse)
    {
      FreeIff(inUse);
      if |inUse| >= PORT_SPAN {
        return Err(PortExhausted);
      }
      if random.None? {
        return Err(RandomSourceFailed);
      }
      var offset := random.value;
      var i, port, found := 0, SOURCE_PORT_MIN, false;
      ghost var used := inUse;
      while i < PORT_SPAN && !found
        invariant i <= PORT_SPAN && !found ==> inUse == used
        invariant !found ==> i <= PORT_SPAN && forall j: nat :: j < i ==> PortAt(offset, j) in used
        invariant found ==> && 0 < i <= PORT_SPAN && port == PortAt(offset, i - 1) && port !in used && inUse == used + {port}
                            && forall j: nat :: j < i - 1 ==> PortAt(offset, j) in used
      {
        port := PortAt(offset, i);
        if port !in inUse {
          inUse := inUse + {port};
          found := true;
        }
        i := i + 1;
      }
      assert found by {
        var p: u16 :| InRange(p) && p !in used;
        var k := ProbeMeets(offset, p);
        assert PortAt(offset, k) == p;
      }
      r := if found then Ok(port) else Err(PortExhausted);
    }

    method Release(port: u16)
      requires Valid()
      modifies this
      ensures Valid() && inUse == old(inUse) - {port}
    {
      inUse := inUse - {port};
    }
  }
}
