/** The allocator of local discriminators: nonzero, unique, drawn at random. */
module Discriminator {
  import opened Bytes

  const MAX_ALLOC_ATTEMPTS: nat := 100

  datatype AllocError = RandomSourceFailed | DiscriminatorExhausted

  /** The answers of the random source, one for each attempt; None is a failed read. */
  type Draws = ds: seq<Option<u32>> | |ds| == 100 witness seq(100, _ => None)

  predicate Usable(draw: Option<u32>, taken: set<u32>) {
    draw.Some? && draw.value != 0 && draw.value !in taken
  }

  /** The attempt that settles the allocation: every attempt before it drew zero or a
      discriminator in use. */
  predicate Settles(draws: seq<Option<u32>>, i: nat, taken: set<u32>) {
    && i < |draws| && (draws[i].None? || Usable(draws[i], taken))
    && forall j :: 0 <= j < i ==> draws[j].Some? && !Usable(draws[j], taken)
  }

  /** Some attempt draws a free discriminator before the random source fails. */
  ghost predicate Drawable(draws: seq<Option<u32>>, taken: set<u32>) {
    exists i: nat :: Settles(draws, i, taken) && draws[i].Some?
  }

  class DiscriminatorAllocator {
    var taken: set<u32>

    constructor ()
      ensures taken == {}
    {
      taken := {};
    }

    method Allocate(draws: Draws) returns (r: Result<u32, AllocError>)
      modifies this
      ensures r.Ok? ==> r.value != 0 && r.value !in old(taken) && taken == old(taken) + {r.value}
      ensures r.Err? ==> taken == old(taken)
      ensures r.Ok? <==> Drawable(draws, old(taken))
      ensures forall i: nat :: Settles(draws, i, old(taken)) ==>
                r == match draws[i] case None => Err(RandomSourceFailed) case Some(d) => Ok(d)
      ensures r == Err(DiscriminatorExhausted)
              <==> forall i :: 0 <= i < |draws| ==> draws[i].Some? && !Usable(draws[i], old(taken))
    {
      for i := 0 to MAX_ALLOC_ATTEMPTS
        invariant taken == old(taken)
        invariant forall j :: 0 <= j < i ==> draws[j].Some? && !Usable(draws[j], taken)
      {
        if draws[i].None? {
          return Err(RandomSourceFailed);
        }
        var discr := draws[i].value;
        if discr == 0 {
          continue;
        }
        if discr in taken {
          continue;
        }
        assert Settles(draws, i, taken) && draws[i].Some?;
        taken := taken + {discr};
        return Ok(discr);
      }
      return Err(DiscriminatorExhausted);
    }

    method Release(discr: u32)
      modifies this
      ensures taken == old(taken) - {discr}
    {
      taken := taken - {discr};
    }
  }
}
