/** Visited lists: a set of node ids kept as epoch tags of 16 bits, so that emptying it is one increment. */
module VisitedLists {
  newtype Tag = x: int | 0 <= x < 65536

  function NextTag(t: Tag): Tag {
    if t == 65535 then 0 else t + 1
  }

  class VisitedList {
    var curV: Tag
    const mass: array<Tag>

    /** No entry is ahead of the epoch; before the first reset the entries may be anything. */
    ghost predicate Valid()
      reads this, mass
    {
      forall i | 0 <= i < mass.Length :: mass[i] <= curV
    }

    /** The ids the searches take for visited. */
    ghost function Visited(): set<nat>
      reads this, mass
    {
      set i: nat | i < mass.Length && mass[i] == curV
    }

    /** The array is allocated without being initialised; the epoch starts at its last value. */
    constructor (numelements: nat)
      ensures Valid() && fresh(mass) && mass.Length == numelements
    {
      curV := 65535;
      mass := new Tag[numelements];
    }

    /** reset: nothing is visited afterwards, also when the counter wraps round. */
    method Reset()
      requires Valid()
      modifies this, mass
      ensures Valid() && Visited() == {}
    {
      curV := NextTag(curV);
      if curV == 0 {
        for i := 0 to mass.Length
          invariant curV == 0 && forall j | 0 <= j < i :: mass[j] == 0
        {
          mass[i] := 0;
        }
        curV := NextTag(curV);
      }
    }

    method Mark(id: nat)
      requires Valid() && id < mass.Length
      modifies mass
      ensures Valid() && Visited() == old(Visited()) + {id}
    {
      mass[id] := curV;
    }

    method IsVisited(id: nat) returns (r: bool)
      requires id < mass.Length
      ensures r <==> id in Visited()
    {
      r := mass[id] == curV;
    }
  }

  /** The pool of lists shared by the searches, with the lists created and those handed out. */
  class VisitedListPool {
    var pool: seq<VisitedList>
    const numelements: nat
    ghost var outstanding: set<VisitedList>
    ghost var created: set<VisitedList>

    ghost function Footprint(): set<object>
      reads this
    {
      created + set v | v in created :: v.mass
    }

    ghost predicate Valid()
      reads this, Footprint()
    {
      && (forall i, j | 0 <= i < j < |pool| :: pool[i] != pool[j])
      && (set v | v in pool) !! outstanding
      && (set v | v in pool) + outstanding == created
      && (forall v | v in created :: v.mass.Length == numelements && v.Valid())
      && (forall v, w | v in created && w in created && v != w :: v.mass != w.mass)
    }

    /** The sets the outstanding lists stand for. */
    ghost function Sets(): map<VisitedList, set<nat>>
      requires outstanding <= created
      reads this, Footprint()
    {
      map v | v in outstanding :: v.Visited()
    }

    constructor (initmaxpools: nat, numelements: nat)
      ensures Valid() && fresh(Footprint()) && |pool| == initmaxpools && Sets() == map[] && this.numelements == numelements
    {
      this.numelements := numelements;
      pool, outstanding, created := [], {}, {};
      new;
      for i := 0 to initmaxpools
        invariant Valid() && fresh(Footprint()) && |pool| == i && outstanding == {}
      {
        var v := new VisitedList(numelements);
        pool := [v] + pool;
        created := created + {v};
      }
    }

    /** The guarded part of getFreeVisitedList: the front of the pool, or a new list. */
    method Take() returns (v: VisitedList)
      requires Valid()
      modifies this
      ensures Valid() && fresh(Footprint() - old(Footprint()))
      ensures v !in old(outstanding) && outstanding == old(outstanding) + {v}
      ensures forall w | w in old(outstanding) :: Sets()[w] == old(Sets())[w]
      ensures created == if |old(pool)| > 0 then old(created) else old(created) + {v}
      ensures if |old(pool)| > 0 then old(pool) == [v] + pool else fresh(v) && pool == []
    {
      if |pool| > 0 {
        v := pool[0];
        ghost var rest := set w | w in pool[1..];
        assert forall w | w in pool :: w == v || w in rest;
        pool := pool[1..];
      } else {
        v := new VisitedList(numelements);
        created := created + {v};
      }
      outstanding := outstanding + {v};
    }

    /** Resetting a list handed out touches no other. */
    method Clean(v: VisitedList)
      requires Valid() && v in outstanding
      modifies v, v.mass
      ensures Valid() && Sets() == old(Sets())[v := {}]
    {
      v.Reset();
    }

    /** getFreeVisitedList: a list nobody else holds, denoting the empty set. */
    method Get() returns (v: VisitedList)
      requires Valid()
      modifies this, Footprint()
      ensures Valid() && fresh(Footprint() - old(Footprint()))
      ensures v !in old(outstanding) && outstanding == old(outstanding) + {v}
      ensures Sets() == old(Sets())[v := {}]
      ensures created == if |old(pool)| > 0 then old(created) else old(created) + {v}
      ensures if |old(pool)| > 0 then old(pool) == [v] + pool else fresh(v) && pool == []
    {
      v := Take();
      Clean(v);
    }

    /** Marking through a list handed out inserts into its set and touches no other. */
    method Mark(v: VisitedList, id: nat)
      requires Valid() && v in outstanding && id < numelements
      modifies v.mass
      ensures Valid() && Sets() == old(Sets())[v := old(Sets())[v] + {id}]
    {
      v.Mark(id);
    }

    /** releaseVisitedList */
    method Release(v: VisitedList)
      requires Valid() && v in outstanding
      modifies this
      ensures Valid() && created == old(created)
      ensures Sets() == old(Sets()) - {v} && pool == [v] + old(pool)
    {
      outstanding := outstanding - {v};
      pool := [v] + pool;
    }
  }
}
