/** Owner-scoped admission of active operations, with one winner per operation. */
module Operations {
  import opened Common

  datatype Operation<T> = Operation(owner: Option<string>, value: T)

  datatype Limits = Limits(total: nat, perOwner: nat)

  datatype AdmissionError = Full | DuplicateId

  type Table<T> = map<string, Operation<T>>

  function OwnedBy<T>(table: Table<T>, owner: Option<string>): set<string> {
    set id | id in table && table[id].owner == owner
  }

  predicate Admits<T>(table: Table<T>, limits: Limits, owner: Option<string>) {
    |table| < limits.total && |OwnedBy(table, owner)| < limits.perOwner
  }

  /** Both limits hold, whoever the owner. */
  ghost predicate Within<T>(table: Table<T>, limits: Limits) {
    |table| <= limits.total && forall owner :: |OwnedBy(table, owner)| <= limits.perOwner
  }

  function Admission<T>(table: Table<T>, limits: Limits, id: string, owner: Option<string>): Option<AdmissionError> {
    if id in table then Some(DuplicateId)
    else if !Admits(table, limits, owner) then Some(Full)
    else None
  }

  lemma InsertOwned<T>(table: Table<T>, id: string, entry: Operation<T>, owner: Option<string>)
    requires id !in table
    ensures |OwnedBy(table[id := entry], owner)| == |OwnedBy(table, owner)| + if owner == entry.owner then 1 else 0
  {
    var before, after := OwnedBy(table, owner), OwnedBy(table[id := entry], owner);
    assert id !in before;
    if owner == entry.owner {
      assert after == before + {id};
    } else {
      assert after == before;
    }
  }

  lemma InsertKeepsWithin<T>(table: Table<T>, limits: Limits, id: string, entry: Operation<T>)
    requires Within(table, limits) && Admission(table, limits, id, entry.owner) == None
    ensures Within(table[id := entry], limits)
  {
    var table' := table[id := entry];
    assert |table'| == |table| + 1;
    forall owner ensures |OwnedBy(table', owner)| <= limits.perOwner {
      InsertOwned(table, id, entry, owner);
    }
  }

  lemma RemoveKeepsWithin<T>(table: Table<T>, limits: Limits, ids: set<string>)
    requires Within(table, limits)
    ensures Within(table - ids, limits)
  {
    SubsetSize((table - ids).Keys, table.Keys);
    forall owner ensures |OwnedBy(table - ids, owner)| <= limits.perOwner {
      SubsetSize(OwnedBy(table - ids, owner), OwnedBy(table, owner));
    }
  }

  /** The caller synchronizes.  Removing an entry claims its terminal transition:
      whoever comes later gets nothing. */
  class OwnedOperations<T> {
    var active: Table<T>
    const limits: Limits

    ghost predicate Valid() reads this {
      Within(active, limits)
    }

    constructor (limits: Limits)
      ensures Valid() && active == map[] && this.limits == limits
    {
      active, this.limits := map[], limits;
    }

    method Admit(owner: Option<string>) returns (error: Option<AdmissionError>)
      ensures error == if Admits(active, limits, owner) then None else Some(Full)
    {
      if |active| >= limits.total || |OwnedBy(active, owner)| >= limits.perOwner {
        return Some(Full);
      }
      return None;
    }

    /** The value is made only after admission succeeds. */
    method InsertWith(id: string, owner: Option<string>, create: string -> T) returns (error: Option<AdmissionError>)
      requires Valid()
      modifies this
      ensures Valid() && error == Admission(old(active), limits, id, owner)
      ensures active == if error.None? then old(active)[id := Operation(owner, create(id))] else old(active)
    {
      if id in active {
        return Some(DuplicateId);
      }
      error := Admit(owner);
      if error.Some? {
        return;
      }
      InsertKeepsWithin(active, limits, id, Operation(owner, create(id)));
      active := active[id := Operation(owner, create(id))];
    }

    method GetOwned(id: string, owner: Option<string>) returns (value: Option<T>)
      ensures value == if id in active && active[id].owner == owner then Some(active[id].value) else None
    {
      if id in active && active[id].owner == owner {
        return Some(active[id].value);
      }
      return None;
    }

    method Claim(id: string) returns (entry: Option<Operation<T>>)
      requires Valid()
      modifies this
      ensures Valid() && active == old(active) - {id}
      ensures entry == if id in old(active) then Some(old(active)[id]) else None
    {
      RemoveKeepsWithin(active, limits, {id});
      if id in active {
        entry := Some(active[id]);
        active := active - {id};
      } else {
        entry := None;
        assert active - {id} == active;
      }
    }

    method ClaimOwned(id: string, owner: Option<string>) returns (entry: Option<Operation<T>>)
      requires Valid()
      modifies this
      ensures Valid()
      ensures entry == if id in old(active) && old(active)[id].owner == owner then Some(old(active)[id]) else None
      ensures active == if entry.Some? then old(active) - {id} else old(active)
    {
      var owned := GetOwned(id, owner);
      if owned.None? {
        return None;
      }
      entry := Claim(id);
    }

    /** Claims every terminal transition at once. */
    method Drain() returns (entries: Table<T>)
      modifies this
      ensures Valid() && active == map[] && entries == old(active)
    {
      entries := active;
      active := map[];
    }
  }
}
